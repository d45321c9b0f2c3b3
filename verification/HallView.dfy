/**
  The incremental message list of widget/public/hall.js: nodes are inserted, replaced and removed one at a
  time from what the store reports. The list always shows exactly the store's messages, in order.
 */
module HallView {
  import opened Collections
  import opened Messages
  import opened MessageStores

  /** A rendered message. */
  datatype Node = Node(msg: Msg)

  ghost function Rendered(ms: seq<Msg>): (ns: seq<Node>)
    ensures |ns| == |ms| && forall i :: 0 <= i < |ms| ==> ns[i] == Node(ms[i])
  {
    seq(|ms|, i requires 0 <= i < |ms| => Node(ms[i]))
  }

  lemma RenderedInsert(ms: seq<Msg>, i: nat, m: Msg)
    requires i <= |ms|
    ensures Rendered(InsertAt(ms, i, m)) == Rendered(ms)[..i] + [Node(m)] + Rendered(ms)[i..]
  {
  }

  lemma RenderedRemove(ms: seq<Msg>, i: nat)
    requires i < |ms|
    ensures Rendered(RemoveAt(ms, i)) == Rendered(ms)[..i] + Rendered(ms)[i + 1..]
  {
  }

  /** `nodes` maps each stored id to the node that shows it. */
  ghost predicate Indexes(nodes: map<Id, Node>, ms: seq<Msg>) {
    && (forall id :: id in nodes <==> HasId(ms, id))
    && (forall i :: 0 <= i < |ms| ==> ms[i].id in nodes && nodes[ms[i].id] == Node(ms[i]))
  }

  lemma IndexesInsert(nodes: map<Id, Node>, ms: seq<Msg>, i: nat, m: Msg)
    requires Indexes(nodes, ms) && UniqueIds(ms) && i <= |ms| && !HasId(ms, m.id)
    ensures Indexes(nodes[m.id := Node(m)], InsertAt(ms, i, m))
  {
    InsertedAt(ms, i, m);
    InsertKeepsIds(ms, i, m);
  }

  lemma IndexesRemove(nodes: map<Id, Node>, ms: seq<Msg>, i: nat)
    requires Indexes(nodes, ms) && UniqueIds(ms) && i < |ms|
    ensures Indexes(nodes - {ms[i].id}, RemoveAt(ms, i))
  {
    RemoveKeepsOrder(ms, i);
    var r := RemoveAt(ms, i);
    forall k | 0 <= k < |r|
      ensures r[k].id in nodes - {ms[i].id} && (nodes - {ms[i].id})[r[k].id] == Node(r[k])
    {
      assert r[k] == ms[if k < i then k else k + 1];
    }
  }

  /** What the list must show after an update, by replacement in place and by moving. */
  lemma UpdateIndexes(nodes: map<Id, Node>, ms: seq<Msg>, o: nat, index: nat, msg: Msg)
    requires Indexes(nodes, ms) && UniqueIds(ms) && o < |ms| && ms[o].id == msg.id && index < |ms|
    ensures Indexes(nodes[msg.id := Node(msg)], InsertAt(RemoveAt(ms, o), index, msg))
  {
    RemoveKeepsOrder(ms, o);
    IndexesRemove(nodes, ms, o);
    IndexesInsert(nodes - {msg.id}, RemoveAt(ms, o), index, msg);
    assert (nodes - {msg.id})[msg.id := Node(msg)] == nodes[msg.id := Node(msg)];
  }

  lemma UpdateMoves(ms: seq<Msg>, o: nat, index: nat, msg: Msg)
    requires o < |ms| && index < |ms|
    ensures var without := Rendered(ms)[..o] + Rendered(ms)[o + 1..];
            Rendered(InsertAt(RemoveAt(ms, o), index, msg)) == without[..index] + [Node(msg)] + without[index..]
  {
    RenderedRemove(ms, o);
    RenderedInsert(RemoveAt(ms, o), index, msg);
  }

  lemma UpdateReplaces(ms: seq<Msg>, o: nat, msg: Msg)
    requires o < |ms|
    ensures Rendered(InsertAt(RemoveAt(ms, o), o, msg)) == Rendered(ms)[o := Node(msg)]
  {
    assert InsertAt(RemoveAt(ms, o), o, msg) == ms[o := msg];
  }

  /** An insertion into a full store whose slot is not the first: the oldest goes, the slot moves down by one. */
  lemma EvictingScript(before: seq<Msg>, i: nat, m: Msg)
    requires 0 < i <= |before| && UniqueIds(before) && !HasId(before, m.id)
    ensures InsertAt(before, i, m)[0] == before[0]
    ensures InsertAt(before, i, m)[1..] == InsertAt(RemoveAt(before, 0), i - 1, m)
    ensures UniqueIds(RemoveAt(before, 0)) && !HasId(RemoveAt(before, 0), m.id)
  {
    RemoveKeepsOrder(before, 0);
  }

  lemma OldestScript(before: seq<Msg>, m: Msg)
    ensures InsertAt(before, 0, m)[1..] == before
  {
  }

  /** After dropping the evicted message, inserting at the reported index gives the store's list. */
  lemma InsertScript(limit: nat, before: seq<Msg>, after: seq<Msg>, m: Msg, r: Upserted)
    requires Inserted(limit, before, after, m, r) && r.Insert? && UniqueIds(before) && !HasId(before, m.id) && |before| <= limit
    ensures r.msg == m && (r.evicted == [] || (before != [] && r.evicted == [before[0].id]))
    ensures r.evicted == [] ==> r.index <= |before| && after == InsertAt(before, r.index, m)
    ensures r.evicted != [] ==>
              var rest := RemoveAt(before, 0);
              r.index <= |rest| && after == InsertAt(rest, r.index, m) && UniqueIds(rest) && !HasId(rest, m.id)
  {
    var i, all := IndexFor(before, m.ts), InsertByTs(before, m);
    if |all| > limit {
      NewestOfOneMore(all, limit);
      EvictingScript(before, i, m);
    }
  }

  /** A message older than a full store changes nothing. */
  lemma IgnoreScript(limit: nat, before: seq<Msg>, after: seq<Msg>, m: Msg, r: Upserted)
    requires Inserted(limit, before, after, m, r) && r.Ignore? && |before| <= limit
    ensures r == Ignore([]) && after == before
  {
    NewestOfOneMore(InsertByTs(before, m), limit);
    OldestScript(before, m);
  }

  class View {
    const store: MessageStore
    var children: seq<Node>
    var nodes: map<Id, Node>

    /** The list mirrors the store. */
    ghost predicate Valid()
      reads this, store
    {
      store.Valid() && Mirrors(store.items)
    }

    ghost predicate Mirrors(ms: seq<Msg>)
      reads this
    {
      children == Rendered(ms) && Indexes(nodes, ms)
    }

    constructor (limit: int)
      ensures Valid() && fresh(store) && store.items == []
    {
      store := new MessageStore(limit);
      children, nodes := [], map[];
    }

    /** node.parentNode.removeChild(node), when the node is shown. */
    method Detach(n: Node)
      modifies this`children
      ensures forall i :: 0 <= i < |old(children)| && old(children)[i] == n && n !in old(children)[..i] ==>
                children == old(children)[..i] + old(children)[i + 1..]
      ensures n !in old(children) ==> children == old(children)
    {
      for i := 0 to |children|
        invariant children == old(children) && n !in children[..i]
      {
        if children[i] == n {
          children := children[..i] + children[i + 1..];
          return;
        }
      }
    }

    /** insertBefore(node, children[index] or null). */
    method InsertBefore(n: Node, index: nat)
      modifies this`children
      ensures var i := if index < |old(children)| then index else |old(children)|;
              children == old(children)[..i] + [n] + old(children)[i..]
    {
      var i := if index < |children| then index else |children|;
      children := children[..i] + [n] + children[i..];
    }

    /** dropNode: shows `ms` without the message of this id. */
    method DropNode(id: Id, ghost ms: seq<Msg>)
      requires Mirrors(ms) && UniqueIds(ms)
      modifies this`children, this`nodes
      ensures !HasId(ms, id) ==> Mirrors(ms)
      ensures forall i :: 0 <= i < |ms| && ms[i].id == id ==> Mirrors(RemoveAt(ms, i))
    {
      if id in nodes {
        ghost var i :| 0 <= i < |ms| && ms[i].id == id;
        assert children[i] == nodes[id] && nodes[id] !in children[..i];
        RenderedRemove(ms, i);
        IndexesRemove(nodes, ms, i);
        Detach(nodes[id]);
        nodes := nodes - {id};
        assert forall k :: 0 <= k < |ms| && ms[k].id == id ==> k == i;
      }
    }

    /** The drop-the-evicted part of ingest: the store evicts at most the oldest message. */
    method DropEvicted(evicted: seq<Id>, ghost ms: seq<Msg>)
      requires Mirrors(ms) && UniqueIds(ms)
      requires evicted == [] || (ms != [] && evicted == [ms[0].id])
      modifies this`children, this`nodes
      ensures Mirrors(if evicted == [] then ms else RemoveAt(ms, 0))
    {
      for k := 0 to |evicted|
        invariant Mirrors(if k == 0 then ms else RemoveAt(ms, 0))
      {
        DropNode(evicted[k], ms);
      }
    }

    /** A new message: its node goes in at the reported index. */
    method ShowInserted(index: nat, msg: Msg, ghost ms: seq<Msg>)
      requires Mirrors(ms) && UniqueIds(ms) && !HasId(ms, msg.id) && index <= |ms|
      modifies this`children, this`nodes
      ensures Mirrors(InsertAt(ms, index, msg))
    {
      RenderedInsert(ms, index, msg);
      IndexesInsert(nodes, ms, index, msg);
      var node := Node(msg);
      nodes := nodes[msg.id := node];
      InsertBefore(node, index);
    }

    /** A stored message: its node is replaced where it stands, or moved to the reported index. */
    method ShowUpdated(index: nat, msg: Msg, moved: bool, ghost ms: seq<Msg>, ghost o: nat)
      requires Mirrors(ms) && UniqueIds(ms) && o < |ms| && ms[o].id == msg.id
      requires index < |ms| && moved == (index != o)
      modifies this`children, this`nodes
      ensures Mirrors(InsertAt(RemoveAt(ms, o), index, msg))
    {
      UpdateIndexes(nodes, ms, o, index, msg);
      UpdateMoves(ms, o, index, msg);
      UpdateReplaces(ms, o, msg);
      var was := nodes[msg.id];
      var fresh' := Node(msg);
      assert children[o] == was && was !in children[..o];
      nodes := nodes[msg.id := fresh'];
      if was in children && !moved {
        ReplaceChild(fresh', was);
      } else {
        if was in children {
          Detach(was);
        }
        InsertBefore(fresh', index);
      }
    }

    /** parent.replaceChild(node, was). */
    method ReplaceChild(n: Node, was: Node)
      modifies this`children
      ensures forall i :: 0 <= i < |old(children)| && old(children)[i] == was && was !in old(children)[..i] ==>
                children == old(children)[i := n]
    {
      for i := 0 to |children|
        invariant children == old(children) && was !in children[..i]
      {
        if children[i] == was {
          children := children[i := n];
          return;
        }
      }
    }

    /** ingest: a message from history, broadcast or echo. A first sight is stamped with the time. */
    method Ingest(msg: Msg, now: int) returns (r: Upserted)
      requires Valid()
      modifies this, store
      ensures Valid()
      ensures store.tombstones == old(store.tombstones) && store.tombOrder == old(store.tombOrder)
      ensures !ValidId(msg.id) || msg.id in old(store.tombstones) ==> r == Ignore([]) && store.items == old(store.items)
      ensures ValidId(msg.id) && msg.id !in old(store.tombstones) && msg.id in old(store.byId) ==>
                Updated(old(store.items), old(store.Position(msg.id)), store.items, msg, r)
      ensures ValidId(msg.id) && msg.id !in old(store.tombstones) && msg.id !in old(store.byId) ==>
                Inserted(store.limit, old(store.items), store.items, msg.(seenAt := Some(now)), r)
    {
      ghost var before := store.items;
      var m := if msg.id in store.byId then msg else msg.(seenAt := Some(now));
      ghost var o := if msg.id in store.byId then store.Position(msg.id) else 0;
      r := store.Upsert(m);
      ghost var stored := msg.id in old(store.byId);
      assert !stored && r != Ignore([]) ==> Inserted(store.limit, before, store.items, m, r);
      match r {
        case Ignore(evicted) =>
          if ValidId(m.id) && m.id !in store.tombstones {
            IgnoreScript(store.limit, before, store.items, m, r);
          }
          DropEvicted(evicted, before);
        case Insert(index, shown, evicted) =>
          InsertScript(store.limit, before, store.items, m, r);
          DropEvicted(evicted, before);
          ShowInserted(index, shown, if evicted == [] then before else RemoveAt(before, 0));
        case Update(index, shown, moved) =>
          ShowUpdated(index, shown, moved, before, o);
      }
    }

    /** removeMessage: deleted in the store, gone from the list. */
    method RemoveMessage(id: Id)
      requires Valid()
      modifies this, store
      ensures Valid()
      ensures store.items == if ValidId(id) && id in old(store.byId) then RemoveAt(old(store.items), old(store.Position(id)))
                             else old(store.items)
      ensures ValidId(id) ==> id in store.tombstones
    {
      ghost var before := store.items;
      ghost var o := if id in store.byId then store.Position(id) else 0;
      assert id in store.byId ==> ValidId(id);
      var removed := store.Remove(id);
      DropNode(id, before);
      assert removed ==> before[o].id == id;
    }

    /** The first half of resend: a failed echo is dropped from the store and from the list. */
    method DropEcho(id: Id)
      requires Valid()
      modifies this, store
      ensures Valid()
      ensures store.items == if id in old(store.byId) then RemoveAt(old(store.items), old(store.Position(id))) else old(store.items)
    {
      ghost var before := store.items;
      ghost var o := if id in store.byId then store.Position(id) else 0;
      var dropped := store.Drop(id);
      DropNode(id, before);
      assert dropped ==> before[o].id == id;
    }

    /** removeMessage, told where the message stands. */
    method RemoveAtPosition(id: Id, ghost at: nat)
      requires Valid() && at < |store.items| && store.items[at].id == id
      modifies this, store
      ensures Valid() && store.items == RemoveAt(old(store.items), at)
    {
      assert HasId(store.items, id);
      RemoveMessage(id);
    }

    static method ScanPage(page: seq<Msg>) returns (keep: set<Id>, minTs: Option<int>)
      ensures forall id :: id in keep <==> HasId(page, id)
      ensures minTs == Oldest(page)
    {
      keep := {};
      minTs := None;
      for k := 0 to |page|
        invariant forall id :: id in keep <==> HasId(page[..k], id)
        invariant minTs == Oldest(page[..k])
      {
        assert page[..k + 1] == page[..k] + [page[k]];
        HasIdSnoc(page[..k], page[k]);
        keep := keep + {page[k].id};
        minTs := if minTs.None? || page[k].ts < minTs.value then Some(page[k].ts) else minTs;
      }
      assert page[..|page|] == page;
    }

    /**
      pruneMissing: what the server's latest page shows as deleted goes. Exactly the messages that `Stays`
      excludes are removed.
     */
    method PruneMissing(page: seq<Msg>, complete: bool, since: int)
      requires Valid()
      modifies this, store
      ensures Valid()
      ensures store.items == Staying(old(store.items), page, complete, since)
    {
      var keep, minTs := ScanPage(page);
      var copy := store.items;
      StayingEnds(copy, page, complete, since);
      for k := 0 to |copy|
        invariant Valid() && store.items == Staying(copy[..k], page, complete, since) + copy[k..]
      {
        PruneStep(copy, k, page, keep, minTs, complete, since);
      }
    }

    method PruneStep(copy: seq<Msg>, k: nat, ghost page: seq<Msg>, keep: set<Id>, minTs: Option<int>, complete: bool, since: int)
      requires Valid() && k < |copy| && store.items == Staying(copy[..k], page, complete, since) + copy[k..]
      requires (forall id :: id in keep <==> HasId(page, id)) && minTs == Oldest(page)
      modifies this, store
      ensures Valid() && store.items == Staying(copy[..k + 1], page, complete, since) + copy[k + 1..]
    {
      var m := copy[k];
      StayingSnoc(copy, k, page, complete, since);
      KeptIffStays(m, page, keep, minTs, complete, since);
      if Kept(m, keep, minTs, complete, since) {
        return;
      }
      RemoveAtPosition(m.id, |Staying(copy[..k], page, complete, since)|);
    }
  }

  /** The three guards of the prune loop. */
  predicate Kept(m: Msg, keep: set<Id>, minTs: Option<int>, complete: bool, since: int) {
    || m.id in keep
    || (m.local.Some? && m.local.value != "")
    || !(m.seenAt.Some? && m.seenAt.value < since)
    || (!complete && (minTs.None? || m.ts < minTs.value))
  }

  /** The smallest time of a page. */
  ghost function Oldest(page: seq<Msg>): (t: Option<int>)
    ensures t.None? <==> page == []
    ensures t.Some? ==> forall i :: 0 <= i < |page| ==> t.value <= page[i].ts
    ensures t.Some? ==> exists i :: 0 <= i < |page| && t.value == page[i].ts
  {
    if page == [] then None
    else
      var before, m := Oldest(page[..|page| - 1]), page[|page| - 1];
      if before.None? || m.ts < before.value then Some(m.ts) else before
  }

  /**
    A message survives a prune when the page has it, when it is a local echo, when it was first seen after the
    request, or when an incomplete page does not reach back to it.
   */
  ghost predicate Stays(m: Msg, page: seq<Msg>, complete: bool, since: int) {
    || HasId(page, m.id)
    || (m.local.Some? && m.local.value != "")
    || !(m.seenAt.Some? && m.seenAt.value < since)
    || (!complete && forall i :: 0 <= i < |page| ==> m.ts < page[i].ts)
  }

  lemma KeptIffStays(m: Msg, page: seq<Msg>, keep: set<Id>, minTs: Option<int>, complete: bool, since: int)
    requires (forall id :: id in keep <==> HasId(page, id)) && minTs == Oldest(page)
    ensures Kept(m, keep, minTs, complete, since) <==> Stays(m, page, complete, since)
  {
  }

  ghost function Staying(ms: seq<Msg>, page: seq<Msg>, complete: bool, since: int): seq<Msg> {
    if ms == [] then []
    else
      var before, m := Staying(ms[..|ms| - 1], page, complete, since), ms[|ms| - 1];
      if Stays(m, page, complete, since) then before + [m] else before
  }

  lemma StayingEnds(copy: seq<Msg>, page: seq<Msg>, complete: bool, since: int)
    ensures Staying(copy[..0], page, complete, since) + copy[0..] == copy
    ensures Staying(copy[..|copy|], page, complete, since) + copy[|copy|..] == Staying(copy, page, complete, since)
  {
    assert copy[..|copy|] == copy && copy[0..] == copy;
  }

  /** One step of the prune loop, kept or removed. */
  lemma StayingSnoc(copy: seq<Msg>, k: nat, page: seq<Msg>, complete: bool, since: int)
    requires k < |copy|
    ensures var before, after := Staying(copy[..k], page, complete, since), Staying(copy[..k + 1], page, complete, since);
            && (Stays(copy[k], page, complete, since) ==> before + copy[k..] == after + copy[k + 1..])
            && (!Stays(copy[k], page, complete, since) ==> RemoveAt(before + copy[k..], |before|) == after + copy[k + 1..])
  {
    assert copy[..k + 1][..k] == copy[..k];
    assert copy[k..] == [copy[k]] + copy[k + 1..];
  }
}
