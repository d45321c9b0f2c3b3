/**
  The agent console's reducer for message status, the identity of messages and the merge of two copies of one
  (admin/src/modules/messageState.js). A field that a message object does not have is `Absent`; a null or empty
  one is `Is("")`. An alias list is the set of its members.
 */
module MessageStatus {
  datatype Opt<T> = Absent | Is(value: T)

  datatype Status = Failed | Sending | Persisted | Sent | Delivered | Read | Unknown

  datatype Extra = Extra(clientId: string, localId: string, serverId: string, status: Opt<Status>)

  datatype Message = Message(id: Opt<string>, clientId: Opt<string>, localId: Opt<string>, serverId: Opt<string>,
                             extra: Opt<Extra>, aliases: Opt<set<string>>, convId: Opt<string>, sender: Opt<string>,
                             senderRef: Opt<string>, content: Opt<string>, media: Opt<string>, createdAt: Opt<int>,
                             status: Opt<Status>, read: Opt<bool>, deliveredWs: Opt<bool>, recalled: Opt<bool>)

  /** A field's text, empty when it has none. */
  function Text(o: Opt<string>): string {
    match o case Absent => "" case Is(s) => s
  }

  // ------------------------------------------------------------------
  // Status
  // ------------------------------------------------------------------

  /** STATE_RANK. */
  function Rank(s: Status): int {
    match s
    case Failed => -1
    case Sending => 0
    case Persisted => 1
    case Sent => 1
    case Delivered => 2
    case Read => 3
    case Unknown => -2
  }

  predicate StartsWith(s: string, prefix: string) {
    prefix <= s
  }

  function Canonical(m: Message): (s: Status)
    ensures s != Sent && s != Unknown
  {
    if m.read == Is(true) || m.status == Is(Read) then Read
    else if m.status == Is(Delivered) then Delivered
    else if m.status == Is(Persisted) || m.status == Is(Sent) then Persisted
    else if m.status == Is(Sending) then Sending
    else if m.status == Is(Failed) then Failed
    else if StartsWith(Text(m.id), "m2-") && m.deliveredWs == Is(true) then Delivered
    else Persisted
  }

  /** The status a message shows: read beats all; an old message without a status counts as delivered by its flag. */
  lemma CanonicalExactly(m: Message)
    ensures var known := m.status.Is? && m.status.value != Unknown;
            && (Canonical(m) == Read <==> m.read == Is(true) || m.status == Is(Read))
            && (m.read != Is(true) && known ==> Canonical(m) == if m.status.value == Sent then Persisted else m.status.value)
            && (m.read != Is(true) && !known ==>
                  Canonical(m) == if m.id.Is? && |m.id.value| >= 3 && m.id.value[..3] == "m2-" && m.deliveredWs == Is(true)
                                  then Delivered else Persisted)
  {
  }

  predicate Pending(m: Message) {
    Canonical(m) == Sending || Canonical(m) == Failed
  }

  /** What the status event does. */
  function Advance(m: Message, next: Status): Message {
    var current := Canonical(m);
    if next == Unknown then m
    else if next == Failed then
      if current != Sending && current != Failed then m else m.(status := Is(Failed))
    else if current == next || (current == Persisted && next == Sent) then m
    else if current == Failed || Rank(next) > Rank(current) then
      var to := if next == Sent then Persisted else next;
      m.(status := Is(to), read := if to == Read then Is(true) else m.read,
         deliveredWs := if to == Delivered || to == Read then Is(true) else m.deliveredWs)
    else m
  }

  /** advanceMessageStatus. */
  method AdvanceMessageStatus(m: Message, nextStatus: Status) returns (m': Message, changed: bool)
    ensures m' == Advance(m, nextStatus) && (!changed ==> m' == m)
    ensures Confirms(Canonical(m')) == if Confirms(nextStatus) > Confirms(Canonical(m)) then Confirms(nextStatus) else Confirms(Canonical(m))
    ensures Pending(m') ==> Pending(m)
    ensures Canonical(m') != Canonical(m) ==> changed && Canonical(m') == if nextStatus == Sent then Persisted else nextStatus
  {
    m' := m;
    if nextStatus == Unknown {
      return m, false;
    }
    var current := Canonical(m);
    if nextStatus == Failed {
      if current != Sending && current != Failed {
        return m, false;
      }
      m' := m'.(status := Is(Failed));
      return m', true;
    }
    if current == nextStatus || (current == Persisted && nextStatus == Sent) {
      return m, false;
    }
    if current == Failed || Rank(nextStatus) > Rank(current) {
      m' := m'.(status := Is(if nextStatus == Sent then Persisted else nextStatus));
      if m'.status == Is(Read) {
        m' := m'.(read := Is(true));
      }
      if m'.status == Is(Delivered) || m'.status == Is(Read) {
        m' := m'.(deliveredWs := Is(true));
      }
      return m', true;
    }
    return m, false;
  }

  /** The rank of a confirmed status; 0 for what confirms nothing. */
  function Confirms(s: Status): nat {
    if Rank(s) >= 1 then Rank(s) else 0
  }

  function AdvanceAll(m: Message, events: seq<Status>): Message {
    if events == [] then m else Advance(AdvanceAll(m, events[..|events| - 1]), events[|events| - 1])
  }

  /** The greatest confirmation of the start and the events. */
  function Greatest(start: nat, events: seq<Status>): (r: nat)
    ensures r >= start && forall i :: 0 <= i < |events| ==> r >= Confirms(events[i])
    ensures r == start || exists i :: 0 <= i < |events| && r == Confirms(events[i])
  {
    if events == [] then start
    else
      var r := Greatest(start, events[..|events| - 1]);
      var c := Confirms(events[|events| - 1]);
      if c > r then c else r
  }

  /**
    Whatever the order of receipts, failures and retries, the message ends at the greatest confirmation seen, and
    it is pending only as long as there is none.
   */
  lemma {:induction false} EndsAtGreatest(m: Message, events: seq<Status>)
    ensures Confirms(Canonical(AdvanceAll(m, events))) == Greatest(Confirms(Canonical(m)), events)
    ensures Pending(AdvanceAll(m, events)) <==> Greatest(Confirms(Canonical(m)), events) == 0
  {
    if events != [] {
      EndsAtGreatest(m, events[..|events| - 1]);
    }
  }

  /** One event: a failure or a retry moves only what is not confirmed, a confirmation only upwards. */
  lemma AdvanceTells(m: Message, next: Status)
    ensures var c, c' := Canonical(m), Canonical(Advance(m, next));
            && (next == Failed ==> c' == if c == Sending || c == Failed then Failed else c)
            && (next == Sending ==> c' == if c == Failed then Sending else c)
            && (next == Persisted || next == Sent ==> c' == if c == Sending || c == Failed then Persisted else c)
            && (next == Delivered ==> c' == if c == Read then Read else Delivered)
            && (next == Read ==> c' == Read)
            && (next == Unknown ==> Advance(m, next) == m)
            && (c' != c && c' == Read ==> Advance(m, next).read == Is(true))
            && (c' != c && (c' == Read || c' == Delivered) ==> Advance(m, next).deliveredWs == Is(true))
  {
  }

  ghost predicate Seen(m: Message, events: seq<Status>, s: Status) {
    Canonical(m) == s || s in events
  }

  /** Where a message ends whatever the order of events: read if ever read, else delivered, else persisted. */
  lemma {:induction false} EndsExactly(m: Message, events: seq<Status>)
    ensures var end := Canonical(AdvanceAll(m, events));
            && (end == Read <==> Seen(m, events, Read))
            && (end == Delivered <==> !Seen(m, events, Read) && Seen(m, events, Delivered))
            && (end == Persisted <==> !Seen(m, events, Read) && !Seen(m, events, Delivered)
                                      && (Seen(m, events, Persisted) || Seen(m, events, Sent)))
  {
    if events != [] {
      var n := |events| - 1;
      EndsExactly(m, events[..n]);
      AdvanceTells(AdvanceAll(m, events[..n]), events[n]);
      assert forall s :: s in events <==> s in events[..n] || s == events[n];
    }
  }

  /** Two orders of the same events with a confirmation among them give the same status. */
  lemma Confluent(m: Message, events: seq<Status>, events': seq<Status>)
    requires forall s :: s in events <==> s in events'
    requires Confirms(Canonical(m)) > 0 || exists i :: 0 <= i < |events| && Confirms(events[i]) > 0
    ensures Canonical(AdvanceAll(m, events)) == Canonical(AdvanceAll(m, events'))
  {
    EndsAtGreatest(m, events);
    EndsAtGreatest(m, events');
    var start := Confirms(Canonical(m));
    GreatestOfSame(start, events, events');
    GreatestOfSame(start, events', events);
  }

  lemma GreatestOfSame(start: nat, events: seq<Status>, events': seq<Status>)
    requires forall s :: s in events ==> s in events'
    ensures Greatest(start, events) <= Greatest(start, events')
  {
    if Greatest(start, events) != start {
      var i :| 0 <= i < |events| && Greatest(start, events) == Confirms(events[i]);
      assert events[i] in events';
    }
  }

  // ------------------------------------------------------------------
  // Identity
  // ------------------------------------------------------------------

  /** MESSAGE_ID_PATTERN. */
  predicate ValidIdentity(s: string) {
    1 <= |s| <= 36 && forall i :: 0 <= i < |s| ==>
      'A' <= s[i] <= 'Z' || 'a' <= s[i] <= 'z' || '0' <= s[i] <= '9' || s[i] == '-'
  }

  function Identity(o: Opt<string>): string {
    if ValidIdentity(Text(o)) then Text(o) else ""
  }

  function Candidates(m: Message): set<string> {
    {Text(m.id), Text(m.clientId), Text(m.localId), Text(m.serverId)}
    + (if m.extra.Is? then {m.extra.value.clientId, m.extra.value.localId, m.extra.value.serverId} else {})
    + (if m.aliases.Is? then m.aliases.value else {})
  }

  /** messageIdentityKeys. */
  function Keys(m: Message): set<string> {
    set k | k in Candidates(m) && ValidIdentity(k)
  }

  /** Where a message's identity keys come from: 1 to 36 letters, digits or hyphens in one of these places. */
  lemma KeysExactly(m: Message, k: string)
    ensures k in Keys(m) <==>
            && 1 <= |k| <= 36
            && (forall i :: 0 <= i < |k| ==> k[i] in "ABCDEFGHIJKLMNOPQRSTUVWXYZ" || k[i] in "abcdefghijklmnopqrstuvwxyz" || k[i] in "0123456789-")
            && (|| m.id == Is(k) || m.clientId == Is(k) || m.localId == Is(k) || m.serverId == Is(k)
                || (m.extra.Is? && (m.extra.value.clientId == k || m.extra.value.localId == k || m.extra.value.serverId == k))
                || (m.aliases.Is? && k in m.aliases.value))
  {
    assert forall c: char :: c in "ABCDEFGHIJKLMNOPQRSTUVWXYZ" <==> 'A' <= c <= 'Z';
    assert forall c: char :: c in "abcdefghijklmnopqrstuvwxyz" <==> 'a' <= c <= 'z';
    assert forall c: char :: c in "0123456789-" <==> '0' <= c <= '9' || c == '-';
    assert k in Keys(m) <==> k in Candidates(m) && ValidIdentity(k);
  }

  predicate SameIdentity(a: Message, b: Message) {
    Keys(a) * Keys(b) != {}
  }

  predicate IsLocal(id: string) {
    StartsWith(id, "local-")
  }

  /** The id after mergeIdentity: the incoming one, unless it is local and the old one is not. */
  function MergedId(target: Message, source: Message): Opt<string> {
    var oldId, incoming := Identity(target.id), Identity(source.id);
    if incoming != "" && (oldId == "" || IsLocal(oldId) || !IsLocal(incoming))
       && !(IsLocal(incoming) && oldId != "" && !IsLocal(oldId))
    then Is(incoming) else target.id
  }

  /** The client id after mergeIdentity, when there was none: the source's, else the replaced id, else the id. */
  function MergedClientId(target: Message, source: Message): Opt<string> {
    var id := MergedId(target, source);
    var oldId := Identity(target.id);
    var correlation := if Identity(source.clientId) != "" then Identity(source.clientId)
                       else if source.extra.Is? then Identity(Is(source.extra.value.clientId)) else "";
    if Text(target.clientId) != "" then target.clientId
    else if correlation != "" then Is(correlation)
    else if oldId != "" && oldId != Text(id) then Is(oldId)
    else id
  }

  /**
    Exactly when the id is replaced: the source has a well-formed one, and it is not a local id coming after a server's.
    A client id, once there, stays; otherwise the source names it, or it is the id that was replaced, or the id.
   */
  lemma IdentityMerged(target: Message, source: Message)
    ensures var m, was, given := MergeIdentity(target, source), Identity(target.id), Identity(source.id);
            && m.id == (if given == "" || ("local-" <= given && was != "" && !("local-" <= was)) then target.id else Is(given))
            && (Text(target.clientId) != "" ==> m.clientId == target.clientId)
            && (Text(target.clientId) == "" && Identity(source.clientId) != "" ==> m.clientId == Is(Identity(source.clientId)))
            && (Text(target.clientId) == "" && Identity(source.clientId) == "" && source.extra.Absent? ==>
                  m.clientId == if was != "" && was != Text(m.id) then Is(was) else m.id)
  {
  }

  /** mergeIdentity: the target with the keys of both. */
  function MergeIdentity(target: Message, source: Message): Message {
    var t := target.(id := MergedId(target, source), clientId := MergedClientId(target, source));
    var all := Keys(target) + Keys(source) + Keys(t);
    if |all| > 1 then t.(aliases := Is(all)) else t
  }

  lemma AliasesAreKeys(t: Message, all: set<string>)
    requires forall k :: k in all ==> ValidIdentity(k)
    ensures all <= Keys(t.(aliases := Is(all)))
  {
  }

  lemma TwoElements<T>(s: set<T>, a: T, b: T)
    requires a in s && b in s && a != b
    ensures |s| >= 2
  {
    assert s == {a, b} + (s - {a, b});
    assert |{a, b}| == 2;
  }

  /** The merged keys contain all keys of both, whenever together they have more than one. */
  lemma ManyKeysKept(target: Message, source: Message)
    requires |Keys(target) + Keys(source)| > 1
    ensures Keys(target) + Keys(source) <= Keys(MergeIdentity(target, source))
  {
    var t := target.(id := MergedId(target, source), clientId := MergedClientId(target, source));
    var both := Keys(target) + Keys(source);
    var all := both + Keys(t);
    assert all == both + (all - both);
    AliasesAreKeys(t, all);
  }

  /** A receipt never replaces a server id by a local one. */
  lemma IdNeverRegresses(target: Message, receipt: Message)
    requires Identity(target.id) != "" && !IsLocal(Text(target.id))
    ensures Identity(MergeIdentity(target, receipt).id) != "" && !IsLocal(Text(MergeIdentity(target, receipt).id))
  {
  }

  // ------------------------------------------------------------------
  // Two copies of one message
  // ------------------------------------------------------------------

  function Over<T>(a: Opt<T>, b: Opt<T>): Opt<T> {
    if b.Is? then b else a
  }

  /** { ...current, ...incoming } */
  function Overlay(c: Message, i: Message): Message {
    Message(Over(c.id, i.id), Over(c.clientId, i.clientId), Over(c.localId, i.localId), Over(c.serverId, i.serverId),
            Over(c.extra, i.extra), Over(c.aliases, i.aliases), Over(c.convId, i.convId), Over(c.sender, i.sender),
            Over(c.senderRef, i.senderRef), Over(c.content, i.content), Over(c.media, i.media), Over(c.createdAt, i.createdAt),
            Over(c.status, i.status), Over(c.read, i.read), Over(c.deliveredWs, i.deliveredWs), Over(c.recalled, i.recalled))
  }

  predicate Recalled(m: Message) {
    m.recalled == Is(true)
  }

  /** Recalled, and nothing of its content is left. */
  predicate Gone(m: Message) {
    Recalled(m) && m.content == Is("") && m.media == Is("")
  }

  function Scrubbed(m: Message): Message {
    if Recalled(m) then m.(content := Is(""), media := Is("")) else m
  }

  function MergedStatus(c: Message, i: Message): Status {
    if Rank(Canonical(c)) > Rank(Canonical(i)) then Canonical(c) else Canonical(i)
  }

  /** mergeSameMessage before mergeIdentity. */
  function MergedBody(c: Message, i: Message): Message {
    var m := Scrubbed(Overlay(c, i).(recalled := if Recalled(c) || Recalled(i) then Is(true) else Overlay(c, i).recalled));
    var st := MergedStatus(c, i);
    m.(status := Is(st), read := if c.read == Is(true) || i.read == Is(true) || st == Read then Is(true) else m.read)
  }

  function MergeSame(c: Message, i: Message): Message {
    MergeIdentity(MergedBody(c, i), i.(aliases := Is(Keys(c) + Keys(i))))
  }

  /** `o` carries what `m` was: a status no lower, recalled if it was, and without content if that was gone. */
  ghost predicate Carries(o: Message, m: Message) {
    Rank(Canonical(o)) >= Rank(Canonical(m)) && (Recalled(m) ==> Recalled(o)) && (Gone(m) ==> Gone(o))
  }

  /** `o` stands for `m`: it also has all its keys. */
  ghost predicate StandsFor(o: Message, m: Message) {
    Keys(m) <= Keys(o) && Carries(o, m)
  }

  lemma SourceKeys(c: Message, i: Message)
    ensures Keys(i.(aliases := Is(Keys(c) + Keys(i)))) == Keys(c) + Keys(i)
  {
    var source := i.(aliases := Is(Keys(c) + Keys(i)));
    forall k
      ensures k in Keys(source) <==> k in Keys(c) + Keys(i)
    {
      assert k in Candidates(source) ==> k in Candidates(i) || k in Keys(c) + Keys(i);
      assert k in Keys(c) + Keys(i) ==> k in Candidates(source);
    }
  }

  /** Overlaying brings in no key of its own and loses none of the incoming ones. */
  lemma OverlayKeys(c: Message, i: Message)
    ensures Keys(i) <= Keys(Overlay(c, i)) <= Keys(c) + Keys(i)
    ensures Keys(MergedBody(c, i)) == Keys(Overlay(c, i))
  {
    forall k | k in Keys(i)
      ensures k in Keys(Overlay(c, i))
    {
      assert k in Candidates(i) && k != "";
      assert k in Candidates(Overlay(c, i));
    }
    forall k | k in Keys(Overlay(c, i))
      ensures k in Keys(c) + Keys(i)
    {
      assert k in Candidates(Overlay(c, i)) && k != "";
      assert k in Candidates(c) + Candidates(i);
    }
    assert Candidates(MergedBody(c, i)) == Candidates(Overlay(c, i));
  }

  lemma LoneKeyStays(target: Message, source: Message, k: string)
    requires |Keys(target) + Keys(source)| <= 1 && k in Keys(target)
    ensures k in Keys(MergeIdentity(target, source))
  {
    var incoming := Identity(source.id);
    if incoming != "" && incoming != k {
      assert incoming in Candidates(source) && incoming in Keys(source);
      TwoElements(Keys(target) + Keys(source), incoming, k);
    }
    assert k in Candidates(target) && k != "";
    assert k in Candidates(target.(id := MergedId(target, source), clientId := MergedClientId(target, source)));
  }

  /** The one family of merges that lose a key: none comes in, and the only one there was is overwritten. */
  ghost predicate LosesKey(c: Message, i: Message) {
    Keys(i) == {} && |Keys(c)| == 1 && Keys(Overlay(c, i)) == {}
  }

  /** Without a key on either side mergeIdentity invents none. */
  lemma NoKeyInvented(target: Message, source: Message)
    requires Keys(target) == {} && Identity(source.id) == "" && Identity(source.clientId) == ""
    requires source.extra.Is? ==> Identity(Is(source.extra.value.clientId)) == ""
    ensures Keys(target.(id := MergedId(target, source), clientId := MergedClientId(target, source))) == {}
  {
    NoKeyNoIdentity(target);
    var t := target.(id := MergedId(target, source), clientId := MergedClientId(target, source));
    assert t.id == target.id && (t.clientId == target.clientId || t.clientId == target.id);
    assert Candidates(t) <= Candidates(target) + {""};
    forall k | k in Candidates(t)
      ensures !ValidIdentity(k)
    {
      assert k !in Keys(target);
    }
  }

  lemma LoneKeyLost(c: Message, i: Message)
    requires LosesKey(c, i)
    ensures Keys(MergeSame(c, i)) == {}
  {
    var target, source := MergedBody(c, i), i.(aliases := Is(Keys(c) + Keys(i)));
    OverlayKeys(c, i);
    SourceKeys(c, i);
    NoKeyNoIdentity(i);
    NoKeyInvented(target, source);
    assert Keys(target) + Keys(source) == Keys(c);
    assert Keys(c) + {} == Keys(c);
  }

  lemma NoKeyNoIdentity(m: Message)
    requires Keys(m) == {}
    ensures Identity(m.id) == "" && Identity(m.clientId) == ""
    ensures m.extra.Is? ==> Identity(Is(m.extra.value.clientId)) == ""
  {
    assert {Text(m.id), Text(m.clientId)} <= Candidates(m);
    assert m.extra.Is? ==> m.extra.value.clientId in Candidates(m);
    assert forall k :: k in Candidates(m) ==> !ValidIdentity(k) by {
      forall k | k in Candidates(m)
        ensures !ValidIdentity(k)
      {
        assert k !in Keys(m);
      }
    }
  }

  /**
    A merge keeps every key of both copies, except exactly when the incoming one has none, the current one has a
    single key, and the incoming fields overwrite it.
   */
  lemma KeysKeptExactly(c: Message, i: Message)
    ensures Keys(c) + Keys(i) <= Keys(MergeSame(c, i)) <==> !LosesKey(c, i)
  {
    var target, source := MergedBody(c, i), i.(aliases := Is(Keys(c) + Keys(i)));
    OverlayKeys(c, i);
    SourceKeys(c, i);
    if |Keys(c) + Keys(i)| > 1 {
      assert Keys(target) + Keys(source) == Keys(c) + Keys(i);
      ManyKeysKept(target, source);
      assert Keys(i) == {} ==> Keys(c) + Keys(i) == Keys(c);
    } else if LosesKey(c, i) {
      LoneKeyLost(c, i);
    } else {
      forall k | k in Keys(c) + Keys(i)
        ensures k in Keys(MergeSame(c, i))
      {
        LoneKeyInOverlay(c, i, k);
        assert Keys(target) + Keys(source) == Keys(c) + Keys(i);
        LoneKeyStays(target, source, k);
      }
    }
  }

  lemma LoneKeyInOverlay(c: Message, i: Message, k: string)
    requires |Keys(c) + Keys(i)| <= 1 && k in Keys(c) + Keys(i)
    requires !LosesKey(c, i)
    ensures k in Keys(Overlay(c, i))
  {
    OverlayKeys(c, i);
    if Keys(i) != {} {
      var x :| x in Keys(i);
      if x != k {
        TwoElements(Keys(c) + Keys(i), x, k);
      }
    } else {
      assert Keys(c) + Keys(i) == Keys(c);
      assert Keys(c) == {k} + (Keys(c) - {k});
      var x :| x in Keys(Overlay(c, i));
      if x != k {
        TwoElements(Keys(c) + Keys(i), x, k);
      }
    }
  }

  /**
    A merge of any two copies has the higher status, keeps a recall from either side with the content cleared, and all
    keys of the incoming copy; those of the current one too, but for the one family above.
   */
  lemma MergeSameStandsFor(c: Message, i: Message)
    ensures StandsFor(MergeSame(c, i), i) && Carries(MergeSame(c, i), c)
    ensures StandsFor(MergeSame(c, i), c) <==> !LosesKey(c, i)
    ensures Rank(Canonical(MergeSame(c, i))) == Rank(MergedStatus(c, i))
    ensures Recalled(c) || Recalled(i) ==> Gone(MergeSame(c, i))
  {
    MergedBodyStatus(c, i);
    KeysKeptExactly(c, i);
    if LosesKey(c, i) {
      LoneKeyLost(c, i);
    }
  }

  /** Copies that share a key, and copies whose incoming id is well formed, are not of that family. */
  lemma SharedKeyIsKept(c: Message, i: Message)
    requires SameIdentity(c, i) || Identity(i.id) != ""
    ensures !LosesKey(c, i)
  {
    if Identity(i.id) != "" {
      assert Text(i.id) in Candidates(i) && Text(i.id) in Keys(i);
    }
  }

  lemma MergedBodyStatus(c: Message, i: Message)
    ensures Canonical(MergeSame(c, i)) == MergedStatus(c, i)
    ensures Recalled(c) || Recalled(i) ==> Gone(MergeSame(c, i))
  {
  }

  /** The status of a merge: the furthest of the two; of two unconfirmed ones a retry beats a failure. */
  lemma MergedStatusExactly(c: Message, i: Message)
    ensures var s, a, b := Canonical(MergeSame(c, i)), Canonical(c), Canonical(i);
            && (s == Read <==> a == Read || b == Read)
            && (s == Delivered <==> a != Read && b != Read && (a == Delivered || b == Delivered))
            && (s == Failed <==> a == Failed && b == Failed)
            && (s == Sending <==> (a == Sending && (b == Sending || b == Failed)) || (a == Failed && b == Sending))
  {
    MergedBodyStatus(c, i);
  }

  /** A message that has only an id. */
  function Bare(id: string): Message {
    Message(Is(id), Absent, Absent, Absent, Absent, Absent, Absent, Absent, Absent, Absent, Absent, Absent,
            Absent, Absent, Absent, Absent)
  }

  lemma BareKeys(id: string)
    ensures Keys(Bare(id)) == if ValidIdentity(id) then {id} else {}
  {
    assert Candidates(Bare(id)) == {id, ""};
  }

  /**
    mergeIdentity is called after the fields were overlaid, so its guard cannot act: a merge takes a server id back to
    a local one exactly when the incoming copy has a local id, be it well formed or not.
   */
  lemma MergeTakesIncomingId(c: Message, i: Message)
    requires Identity(c.id) != "" && !IsLocal(Text(c.id))
    ensures i.id.Is? ==> MergeSame(c, i).id == i.id
    ensures IsLocal(Text(MergeSame(c, i).id)) <==> IsLocal(Text(i.id))
  {
    assert MergedBody(c, i).id == Over(c.id, i.id);
  }

  // ------------------------------------------------------------------
  // Receipts
  // ------------------------------------------------------------------

  /** The message a receipt is for: same conversation where both name one, and a common key. */
  predicate IsFor(m: Message, receipt: Message) {
    (Text(receipt.convId) == "" || Text(m.convId) == "" || Text(receipt.convId) == Text(m.convId)) && SameIdentity(m, receipt)
  }

  /** Conversations differ only where both name one. */
  lemma IsForExactly(m: Message, receipt: Message)
    ensures IsFor(m, receipt) <==>
            && (exists k :: k in Keys(m) && k in Keys(receipt))
            && !(m.convId.Is? && receipt.convId.Is? && m.convId.value != "" && receipt.convId.value != "" && m.convId != receipt.convId)
  {
    if SameIdentity(m, receipt) {
      var k :| k in Keys(m) * Keys(receipt);
    }
  }

  /** nextStatus, else the receipt's own status, else the one in its extra part. */
  function ReceiptStatus(receipt: Message, nextStatus: Opt<Status>): Opt<Status> {
    if nextStatus.Is? then nextStatus
    else if receipt.status.Is? then receipt.status
    else if receipt.extra.Is? then receipt.extra.value.status
    else Absent
  }

  /** applyMessageReceipt: the first matching message takes the receipt's keys and, if there is one, its status. */
  method ApplyMessageReceipt(messages: seq<Message>, receipt: Message, nextStatus: Opt<Status>)
      returns (out: seq<Message>, matched: bool, at: nat)
    ensures |out| == |messages|
    ensures matched <==> exists k :: 0 <= k < |messages| && IsFor(messages[k], receipt)
    ensures !matched ==> out == messages
    ensures matched ==> at < |messages| && IsFor(messages[at], receipt) && forall k :: 0 <= k < at ==> !IsFor(messages[k], receipt)
    ensures matched ==> forall k :: 0 <= k < |out| && k != at ==> out[k] == messages[k]
    ensures matched ==>
              var status := ReceiptStatus(receipt, nextStatus);
              var merged := MergeIdentity(messages[at], receipt);
              out[at] == if status.Is? then Advance(merged, status.value) else merged
  {
    out, at := messages, 0;
    while at < |messages| && !IsFor(messages[at], receipt)
      invariant at <= |messages| && forall k :: 0 <= k < at ==> !IsFor(messages[k], receipt)
    {
      at := at + 1;
    }
    matched := at < |messages|;
    if !matched {
      return;
    }
    var merged := MergeIdentity(messages[at], receipt);
    var status := nextStatus;
    if !status.Is? {
      status := receipt.status;
    }
    if !status.Is? && receipt.extra.Is? {
      status := receipt.extra.value.status;
    }
    if status.Is? {
      var changed;
      merged, changed := AdvanceMessageStatus(merged, status.value);
    }
    out := out[at := merged];
  }
}
