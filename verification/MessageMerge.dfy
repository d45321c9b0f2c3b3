/**
  The agent console's merge of cached, optimistic and fetched messages (mergeMessageLists in
  admin/src/modules/messageState.js). Every message of the result is traced to the copies it is made of.
 */
module MessageMerge {
  import opened StableSorting
  import opened MessageStatus

  const FALLBACK_MS := 120000

  function TimeOf(m: Message): int {
    if m.createdAt.Is? then m.createdAt.value else 0
  }

  function Distance(a: Message, b: Message): nat {
    if TimeOf(a) < TimeOf(b) then TimeOf(b) - TimeOf(a) else TimeOf(a) - TimeOf(b)
  }

  /** The first message with a common key, or |ms|. */
  function FindSame(ms: seq<Message>, m: Message): (k: nat)
    ensures k <= |ms| && (k < |ms| ==> SameIdentity(ms[k], m)) && forall j :: 0 <= j < k ==> !SameIdentity(ms[j], m)
  {
    if ms == [] then 0 else if SameIdentity(ms[0], m) then 0 else FindSame(ms[1..], m) + 1
  }

  function Upsert(confirmed: seq<Message>, m: Message): (r: seq<Message>)
  {
    var k := FindSame(confirmed, m);
    if k < |confirmed| then confirmed[k := MergeSame(confirmed[k], m)] else confirmed + [m]
  }

  /** Two confirmed copies of one message whose merge takes a server id back to a local one. */
  lemma ServerIdDisplaced(server: string, local: string)
    requires ValidIdentity(server) && !IsLocal(server) && ValidIdentity(local) && IsLocal(local)
    ensures var c, i := Bare(server).(clientId := Is(local)), Bare(local);
            && !Pending(c) && !Pending(i) && SameIdentity(c, i)
            && Upsert([c], i) == [MergeSame(c, i)] && MergeSame(c, i).id == Is(local)
  {
    var c, i := Bare(server).(clientId := Is(local)), Bare(local);
    assert local in Candidates(c) && local in Candidates(i);
    assert local in Keys(c) * Keys(i);
    MergeTakesIncomingId(c, i);
  }

  /** A message joins the first one it shares a key with, and nothing else changes; it is added if there is none. */
  lemma UpsertExactly(confirmed: seq<Message>, m: Message)
    ensures (forall k :: 0 <= k < |confirmed| ==> !SameIdentity(confirmed[k], m)) ==> Upsert(confirmed, m) == confirmed + [m]
    ensures forall j :: 0 <= j < |confirmed| && SameIdentity(confirmed[j], m) && (forall k :: 0 <= k < j ==> !SameIdentity(confirmed[k], m)) ==>
              && |Upsert(confirmed, m)| == |confirmed|
              && forall k :: 0 <= k < |confirmed| && k != j ==> Upsert(confirmed, m)[k] == confirmed[k]
  {
  }

  /** A message of an old local queue that may be this fetched one: same text, media, conversation, sender, and time. */
  predicate Resembles(local: Message, m: Message) {
    && IsLocal(Text(local.id)) && Text(local.content) == Text(m.content) && Text(local.media) == Text(m.media)
    && (Text(local.convId) == "" || Text(m.convId) == "" || Text(local.convId) == Text(m.convId))
    && (Text(local.senderRef) == "" || Text(m.senderRef) == "" || Text(local.senderRef) == Text(m.senderRef))
    && Distance(local, m) <= FALLBACK_MS
  }

  /** ... within two minutes; a name, text or conversation that one of them lacks is no difference. */
  lemma ResemblesExactly(local: Message, m: Message)
    ensures Resembles(local, m) <==>
            && (local.id.Is? && |local.id.value| >= 6 && local.id.value[..6] == "local-")
            && Text(local.content) == Text(m.content) && Text(local.media) == Text(m.media)
            && !(Text(local.convId) != "" && Text(m.convId) != "" && Text(local.convId) != Text(m.convId))
            && !(Text(local.senderRef) != "" && Text(m.senderRef) != "" && Text(local.senderRef) != Text(m.senderRef))
            && var a, b := if local.createdAt.Is? then local.createdAt.value else 0, if m.createdAt.Is? then m.createdAt.value else 0;
               -120000 <= a - b <= 120000
  {
  }

  /** The resembling message nearest in time, the first of several, or |pending|. */
  ghost predicate Nearest(pending: seq<Message>, m: Message, k: nat) {
    && k <= |pending|
    && (k == |pending| ==> forall j :: 0 <= j < |pending| ==> !Resembles(pending[j], m))
    && (k < |pending| ==>
          && Resembles(pending[k], m)
          && (forall j :: 0 <= j < |pending| && Resembles(pending[j], m) ==> Distance(pending[k], m) <= Distance(pending[j], m))
          && (forall j :: 0 <= j < k && Resembles(pending[j], m) ==> Distance(pending[k], m) < Distance(pending[j], m)))
  }

  /** The pending message a fetched one consumes: by a common key, else, for an agent's message, by resemblance. */
  ghost predicate Match(pending: seq<Message>, m: Message, k: nat) {
    if FindSame(pending, m) < |pending| then k == FindSame(pending, m)
    else if m.sender == Is("agent") then Nearest(pending, m, k)
    else k == |pending|
  }

  function Normalized(m: Message): Message {
    Scrubbed(m.(status := Is(Canonical(m))))
  }

  method FindMatch(pending: seq<Message>, m: Message) returns (k: nat)
    ensures k <= |pending| && Match(pending, m, k)
  {
    k := FindSame(pending, m);
    if k == |pending| && m.sender == Is("agent") {
      for i := 0 to |pending|
        invariant k == |pending| || k < i
        invariant k == |pending| ==> forall j :: 0 <= j < i ==> !Resembles(pending[j], m)
        invariant k < |pending| ==>
                    && Resembles(pending[k], m)
                    && (forall j :: 0 <= j < i && Resembles(pending[j], m) ==> Distance(pending[k], m) <= Distance(pending[j], m))
                    && (forall j :: 0 <= j < k && Resembles(pending[j], m) ==> Distance(pending[k], m) < Distance(pending[j], m))
      {
        if Resembles(pending[i], m) && (k == |pending| || Distance(pending[i], m) < Distance(pending[k], m)) {
          k := i;
        }
      }
    }
  }

  /** A key is lost only where a fetched message without a key consumes a local one that resembles it. */
  lemma LostByResemblance(pending: seq<Message>, m: Message, k: nat)
    requires k < |pending| && Match(pending, m, k) && LosesKey(pending[k], m)
    ensures m.sender == Is("agent") && Keys(m) == {} && Resembles(pending[k], m)
  {
  }

  /** Sent by an agent under a local id and nothing else. */
  function SentAs(local: string): Message {
    Bare(local).(status := Is(Sending), sender := Is("agent"))
  }

  function FetchedAs(id: string): Message {
    Bare(id).(sender := Is("agent"))
  }

  lemma SentAndFetchedKeys(local: string, fetched: string)
    requires ValidIdentity(local) && !ValidIdentity(fetched)
    ensures var l, n := SentAs(local), Normalized(FetchedAs(fetched));
            Keys(l) == {local} && Keys(n) == {} && Keys(Overlay(l, n)) == {}
  {
    var l, n := SentAs(local), Normalized(FetchedAs(fetched));
    assert Candidates(l) == {local, ""} && Candidates(n) == {fetched, ""};
    assert Candidates(Overlay(l, n)) == Candidates(n);
  }

  lemma SentIsConsumed(local: string, fetched: string)
    requires ValidIdentity(local) && IsLocal(local) && !ValidIdentity(fetched)
    ensures Pending(SentAs(local)) && Match([SentAs(local)], Normalized(FetchedAs(fetched)), 0)
  {
    SentAndFetchedKeys(local, fetched);
  }

  /** Such messages exist: one sent under a local id, and the same one fetched with an id that is not well formed. */
  lemma InvalidIdLosesKey(local: string, fetched: string)
    requires ValidIdentity(local) && IsLocal(local) && fetched != "" && !ValidIdentity(fetched)
    ensures var l, m := SentAs(local), FetchedAs(fetched);
            && Pending(l) && Text(m.id) != "" && Match([l], Normalized(m), 0)
            && Keys(l) == {local} && LosesKey(l, Normalized(m)) && Keys(MergeSame(l, Normalized(m))) == {}
  {
    SentIsConsumed(local, fetched);
    SentAndFetchedKeys(local, fetched);
    assert |{local}| == 1;
    LoneKeyLost(SentAs(local), Normalized(FetchedAs(fetched)));
  }

  /** `o` answers for the fetched `m`: it stands for it, and a recalled one has lost its content. */
  ghost predicate AnswersFor(o: Message, m: Message) {
    StandsFor(o, m) && (Recalled(m) ==> Gone(o))
  }

  /** `o` takes over from `local` what a merge with the fetched `m` keeps, and answers for `m`. */
  ghost predicate TakesOver(o: Message, local: Message, m: Message) {
    AnswersFor(o, m) && Carries(o, local) && (Recalled(local) ==> Gone(o)) && (LosesKey(local, m) || Keys(local) <= Keys(o))
  }

  lemma TakesOverTransitive(o': Message, o: Message, local: Message, m: Message)
    requires StandsFor(o', o) && TakesOver(o, local, m)
    ensures TakesOver(o', local, m)
  {
  }

  /** Normalising keeps keys and status and clears what was recalled. */
  lemma NormalizedAnswers(m: Message)
    ensures AnswersFor(Normalized(m), m) && Keys(Normalized(m)) == Keys(m)
  {
    assert Candidates(Normalized(m)) == Candidates(m);
  }

  lemma NormalizedLosesSame(local: Message, m: Message)
    ensures LosesKey(local, Normalized(m)) <==> LosesKey(local, m)
  {
    NormalizedAnswers(m);
    assert Candidates(Overlay(local, Normalized(m))) == Candidates(Overlay(local, m));
  }

  // ------------------------------------------------------------------
  // What a confirmed message is made of
  // ------------------------------------------------------------------

  /** A copy that went into a message: one there was, a pending one that fetched message `n` consumed, or that message. */
  datatype Source = Had(i: nat) | Ate(local: Message, n: nat) | Got(n: nat)

  ghost predicate Exists(s: Source, existing: seq<Message>, fetched: seq<Message>) {
    match s
    case Had(i) => i < |existing| && !Pending(existing[i]) && Text(existing[i].id) != ""
    case Ate(_, n) => n < |fetched| && Text(fetched[n].id) != ""
    case Got(n) => n < |fetched| && Text(fetched[n].id) != ""
  }

  ghost function CopyOf(s: Source, existing: seq<Message>, fetched: seq<Message>): Message
    requires Exists(s, existing, fetched)
  {
    match s
    case Had(i) => existing[i]
    case Ate(local, _) => local
    case Got(n) => fetched[n]
  }

  ghost predicate AllExist(h: seq<Source>, existing: seq<Message>, fetched: seq<Message>) {
    forall a :: 0 <= a < |h| ==> Exists(h[a], existing, fetched)
  }

  ghost function Copies(h: seq<Source>, existing: seq<Message>, fetched: seq<Message>): (cs: seq<Message>)
    requires AllExist(h, existing, fetched)
    ensures |cs| == |h| && forall a :: 0 <= a < |h| ==> cs[a] == CopyOf(h[a], existing, fetched)
  {
    seq(|h|, a requires 0 <= a < |h| => CopyOf(h[a], existing, fetched))
  }

  /** The order in which copies are merged. */
  ghost function Place(s: Source, existing: seq<Message>): nat {
    match s
    case Had(i) => i
    case Ate(_, n) => |existing| + 2 * n
    case Got(n) => |existing| + 2 * n + 1
  }

  ghost predicate Rising(h: seq<Source>, existing: seq<Message>) {
    forall a, b :: 0 <= a < b < |h| ==> Place(h[a], existing) < Place(h[b], existing)
  }

  // The fields a merge takes over as they are.
  function ContentOf(m: Message): Opt<string> { m.content }
  function MediaOf(m: Message): Opt<string> { m.media }
  function CreatedOf(m: Message): Opt<int> { m.createdAt }
  function ConvOf(m: Message): Opt<string> { m.convId }
  function SenderOf(m: Message): Opt<string> { m.sender }
  function SenderRefOf(m: Message): Opt<string> { m.senderRef }
  function LocalOf(m: Message): Opt<string> { m.localId }
  function ServerOf(m: Message): Opt<string> { m.serverId }
  function DeliveredOf(m: Message): Opt<bool> { m.deliveredWs }

  /** `v` is the value of field `f` in the last of the copies that has one; absent if none has. */
  ghost predicate LastGiven<T>(v: Opt<T>, cs: seq<Message>, f: Message -> Opt<T>) {
    if v.Is? then exists i :: 0 <= i < |cs| && f(cs[i]) == v && forall j :: i < j < |cs| ==> f(cs[j]).Absent?
    else forall i :: 0 <= i < |cs| ==> f(cs[i]).Absent?
  }

  /**
    `o` is made of the copies: each field is that of the last copy that has it, but a message any of whose copies was
    recalled is recalled.
   */
  ghost predicate Made(o: Message, cs: seq<Message>) {
    && (Recalled(o) <==> exists i :: 0 <= i < |cs| && Recalled(cs[i]))
    && (!Recalled(o) ==> LastGiven(o.content, cs, ContentOf) && LastGiven(o.media, cs, MediaOf))
    && LastGiven(o.createdAt, cs, CreatedOf) && LastGiven(o.convId, cs, ConvOf)
    && LastGiven(o.sender, cs, SenderOf) && LastGiven(o.senderRef, cs, SenderRefOf)
    && LastGiven(o.localId, cs, LocalOf) && LastGiven(o.serverId, cs, ServerOf) && LastGiven(o.deliveredWs, cs, DeliveredOf)
  }

  lemma LastGivenOver<T>(v: Opt<T>, w: Opt<T>, a: seq<Message>, b: seq<Message>, f: Message -> Opt<T>)
    requires LastGiven(v, a, f) && LastGiven(w, b, f)
    ensures LastGiven(Over(v, w), a + b, f)
  {
    var all := a + b;
    if w.Is? {
      var i :| 0 <= i < |b| && f(b[i]) == w && forall j :: i < j < |b| ==> f(b[j]).Absent?;
      assert f(all[|a| + i]) == w;
    } else if v.Is? {
      var i :| 0 <= i < |a| && f(a[i]) == v && forall j :: i < j < |a| ==> f(a[j]).Absent?;
      assert f(all[i]) == v;
    }
  }

  /** What a merge does to the fields. */
  lemma MergeSameFields(c: Message, i: Message)
    ensures var o := MergeSame(c, i);
            && (Recalled(o) <==> Recalled(c) || Recalled(i))
            && (!Recalled(o) ==> o.content == Over(c.content, i.content) && o.media == Over(c.media, i.media))
            && o.createdAt == Over(c.createdAt, i.createdAt) && o.convId == Over(c.convId, i.convId)
            && o.sender == Over(c.sender, i.sender) && o.senderRef == Over(c.senderRef, i.senderRef)
            && o.localId == Over(c.localId, i.localId) && o.serverId == Over(c.serverId, i.serverId)
            && o.deliveredWs == Over(c.deliveredWs, i.deliveredWs)
  {
  }

  lemma RecalledBoth(a: seq<Message>, b: seq<Message>)
    ensures (exists i :: 0 <= i < |a + b| && Recalled((a + b)[i])) <==>
            (exists i :: 0 <= i < |a| && Recalled(a[i])) || (exists i :: 0 <= i < |b| && Recalled(b[i]))
  {
    if i :| 0 <= i < |a| && Recalled(a[i]) {
      assert Recalled((a + b)[i]);
    }
    if i :| 0 <= i < |b| && Recalled(b[i]) {
      assert Recalled((a + b)[|a| + i]);
    }
  }

  lemma MadeMerge(c: Message, i: Message, a: seq<Message>, b: seq<Message>)
    requires Made(c, a) && Made(i, b)
    ensures Made(MergeSame(c, i), a + b)
  {
    MergeSameFields(c, i);
    RecalledBoth(a, b);
    if !Recalled(c) && !Recalled(i) {
      LastGivenOver(c.content, i.content, a, b, ContentOf);
      LastGivenOver(c.media, i.media, a, b, MediaOf);
    }
    LastGivenOver(c.createdAt, i.createdAt, a, b, CreatedOf);
    LastGivenOver(c.convId, i.convId, a, b, ConvOf);
    LastGivenOver(c.sender, i.sender, a, b, SenderOf);
    LastGivenOver(c.senderRef, i.senderRef, a, b, SenderRefOf);
    LastGivenOver(c.localId, i.localId, a, b, LocalOf);
    LastGivenOver(c.serverId, i.serverId, a, b, ServerOf);
    LastGivenOver(c.deliveredWs, i.deliveredWs, a, b, DeliveredOf);
  }

  lemma MadeOfItself(m: Message)
    ensures Made(m, [m]) && Made(Normalized(m), [m])
  {
    assert [m][0] == m;
  }

  /** A merge brings in no key that neither copy has. */
  lemma MergedKeysKnown(c: Message, i: Message)
    ensures Keys(MergeSame(c, i)) <= Keys(c) + Keys(i)
  {
    var target, source := MergedBody(c, i), i.(aliases := Is(Keys(c) + Keys(i)));
    OverlayKeys(c, i);
    SourceKeys(c, i);
    IdentityKeysKnown(target, source);
  }

  lemma IdentityKeysKnown(target: Message, source: Message)
    ensures Keys(MergeIdentity(target, source)) <= Keys(target) + Keys(source)
  {
    var t := target.(id := MergedId(target, source), clientId := MergedClientId(target, source));
    var both := Keys(target) + Keys(source);
    RenamedKeys(target, source, t);
    var all := both + Keys(t);
    forall k | k in Keys(t.(aliases := Is(all)))
      ensures k in both
    {
      assert k in Candidates(t) || k in all;
    }
  }

  lemma RenamedKeys(target: Message, source: Message, t: Message)
    requires t == target.(id := MergedId(target, source), clientId := MergedClientId(target, source))
    ensures Keys(t) <= Keys(target) + Keys(source)
  {
    assert Text(source.id) in Candidates(source) && Text(source.clientId) in Candidates(source) && Text(target.id) in Candidates(target);
    assert source.extra.Is? ==> source.extra.value.clientId in Candidates(source);
    forall k | k in Keys(t)
      ensures k in Keys(target) + Keys(source)
    {
      assert k != "" && k in Candidates(t);
      if k !in Candidates(target) {
        assert k == Text(t.id) || k == Text(t.clientId);
      }
    }
  }

  // ------------------------------------------------------------------
  // Histories
  // ------------------------------------------------------------------

  /** What a message that has source `s` in it keeps of it. */
  ghost predicate Keeps(o: Message, s: Source, existing: seq<Message>, fetched: seq<Message>) {
    && Exists(s, existing, fetched)
    && match s
       case Had(i) => StandsFor(o, existing[i])
       case Ate(local, n) => TakesOver(o, local, fetched[n])
       case Got(n) => AnswersFor(o, fetched[n])
  }

  /** Two copies belong together: they share a key, or one consumed the other. */
  ghost predicate Touch(s: Source, t: Source, existing: seq<Message>, fetched: seq<Message>)
    requires Exists(s, existing, fetched) && Exists(t, existing, fetched)
  {
    || SameIdentity(CopyOf(s, existing, fetched), CopyOf(t, existing, fetched))
    || (s.Ate? && t == Got(s.n)) || (t.Ate? && s == Got(t.n))
  }

  ghost predicate TouchesOther(h: seq<Source>, a: nat, existing: seq<Message>, fetched: seq<Message>)
    requires AllExist(h, existing, fetched) && a < |h|
  {
    exists b :: 0 <= b < |h| && b != a && Touch(h[a], h[b], existing, fetched)
  }

  /** The keys of all copies. */
  ghost function KeysOfAll(cs: seq<Message>): set<string> {
    if cs == [] then {} else KeysOfAll(cs[..|cs| - 1]) + Keys(cs[|cs| - 1])
  }

  ghost predicate KeepsAll(o: Message, h: seq<Source>, existing: seq<Message>, fetched: seq<Message>) {
    forall a :: 0 <= a < |h| ==> Keeps(o, h[a], existing, fetched)
  }

  ghost predicate AllTouch(h: seq<Source>, existing: seq<Message>, fetched: seq<Message>)
    requires AllExist(h, existing, fetched)
  {
    |h| > 1 ==> forall a :: 0 <= a < |h| ==> TouchesOther(h, a, existing, fetched)
  }

  /** A message of one copy is that copy; a fetched one is normalised. */
  ghost predicate Single(o: Message, h: seq<Source>, existing: seq<Message>, fetched: seq<Message>)
    requires AllExist(h, existing, fetched)
  {
    |h| == 1 ==> o == match h[0] case Had(i) => existing[i] case Got(n) => Normalized(fetched[n]) case Ate(local, _) => local
  }

  /** `o` is made of the sources `h`, in their order, and keeps of each what it must. */
  ghost predicate Entry(o: Message, h: seq<Source>, existing: seq<Message>, fetched: seq<Message>) {
    && h != [] && AllExist(h, existing, fetched) && Rising(h, existing)
    && KeepsAll(o, h, existing, fetched) && Made(o, Copies(h, existing, fetched))
    && Keys(o) <= KeysOfAll(Copies(h, existing, fetched))
    && AllTouch(h, existing, fetched) && Single(o, h, existing, fetched)
  }

  lemma KeepsOn(o': Message, o: Message, s: Source, existing: seq<Message>, fetched: seq<Message>)
    requires StandsFor(o', o) && Keeps(o, s, existing, fetched)
    ensures Keeps(o', s, existing, fetched)
  {
    if s.Ate? {
      TakesOverTransitive(o', o, s.local, fetched[s.n]);
    }
  }

  lemma {:induction false} KeysOfBoth(a: seq<Message>, b: seq<Message>)
    ensures KeysOfAll(a + b) == KeysOfAll(a) + KeysOfAll(b)
  {
    if b == [] {
      assert a + b == a;
    } else {
      var n := |b| - 1;
      KeysOfBoth(a, b[..n]);
      assert (a + b)[..|a| + n] == a + b[..n];
      assert (a + b)[|a| + n] == b[n];
    }
  }

  lemma {:induction false} KeyOfOne(cs: seq<Message>, k: string) returns (i: nat)
    requires k in KeysOfAll(cs)
    ensures i < |cs| && k in Keys(cs[i])
  {
    var n := |cs| - 1;
    i := n;
    if k !in Keys(cs[n]) {
      i := KeyOfOne(cs[..n], k);
    }
  }

  lemma OneKeys(m: Message)
    ensures KeysOfAll([m]) == Keys(m)
  {
    assert [m][..0] == [];
    assert KeysOfAll([m][..0]) == {};
  }

  lemma CopiesOfBoth(h: seq<Source>, g: seq<Source>, existing: seq<Message>, fetched: seq<Message>)
    requires AllExist(h, existing, fetched) && AllExist(g, existing, fetched)
    ensures AllExist(h + g, existing, fetched)
    ensures Copies(h + g, existing, fetched) == Copies(h, existing, fetched) + Copies(g, existing, fetched)
  {
    forall a | 0 <= a < |h + g|
      ensures Exists((h + g)[a], existing, fetched)
    {
    }
  }

  /** Two messages with a common key have copies with a common key. */
  lemma CommonCopies(o: Message, x: Message, h: seq<Source>, g: seq<Source>, existing: seq<Message>, fetched: seq<Message>) returns (a: nat, b: nat)
    requires AllExist(h, existing, fetched) && AllExist(g, existing, fetched) && SameIdentity(o, x)
    requires Keys(o) <= KeysOfAll(Copies(h, existing, fetched)) && Keys(x) <= KeysOfAll(Copies(g, existing, fetched))
    ensures a < |h| && b < |g|
    ensures Touch(h[a], g[b], existing, fetched) && Touch(g[b], h[a], existing, fetched)
  {
    var k :| k in Keys(o) * Keys(x);
    a := KeyOfOne(Copies(h, existing, fetched), k);
    b := KeyOfOne(Copies(g, existing, fetched), k);
    assert k in Keys(CopyOf(h[a], existing, fetched)) * Keys(CopyOf(g[b], existing, fetched));
    assert k in Keys(CopyOf(g[b], existing, fetched)) * Keys(CopyOf(h[a], existing, fetched));
  }

  /** A copy that touches another one still does in a longer history. */
  lemma TouchesStill(h: seq<Source>, a: nat, all: seq<Source>, shift: nat, existing: seq<Message>, fetched: seq<Message>)
    requires AllExist(h, existing, fetched) && AllExist(all, existing, fetched) && a < |h| && TouchesOther(h, a, existing, fetched)
    requires shift + |h| <= |all| && forall i :: 0 <= i < |h| ==> all[shift + i] == h[i]
    ensures TouchesOther(all, shift + a, existing, fetched)
  {
    var b :| 0 <= b < |h| && b != a && Touch(h[a], h[b], existing, fetched);
    assert Touch(all[shift + a], all[shift + b], existing, fetched);
  }

  lemma TouchingBoth(h: seq<Source>, g: seq<Source>, p: nat, q: nat, existing: seq<Message>, fetched: seq<Message>)
    requires AllExist(h, existing, fetched) && AllExist(g, existing, fetched) && AllExist(h + g, existing, fetched)
    requires AllTouch(h, existing, fetched) && AllTouch(g, existing, fetched) && p < |h| && q < |g|
    requires Touch(h[p], g[q], existing, fetched) && Touch(g[q], h[p], existing, fetched)
    ensures AllTouch(h + g, existing, fetched)
  {
    var all := h + g;
    assert all[p] == h[p] && all[|h| + q] == g[q];
    forall a | 0 <= a < |all|
      ensures TouchesOther(all, a, existing, fetched)
    {
      if a < |h| && |h| > 1 {
        TouchesStill(h, a, all, 0, existing, fetched);
      } else if a < |h| {
        assert a == p && Touch(all[a], all[|h| + q], existing, fetched);
      } else if |g| > 1 {
        TouchesStill(g, a - |h|, all, |h|, existing, fetched);
      } else {
        assert a == |h| + q && Touch(all[a], all[p], existing, fetched);
      }
    }
  }

  lemma MergeKeepsAll(o: Message, x: Message, h: seq<Source>, g: seq<Source>, existing: seq<Message>, fetched: seq<Message>)
    requires KeepsAll(o, h, existing, fetched) && KeepsAll(x, g, existing, fetched) && SameIdentity(o, x)
    ensures KeepsAll(MergeSame(o, x), h + g, existing, fetched)
  {
    var o', all := MergeSame(o, x), h + g;
    MergeSameStandsFor(o, x);
    SharedKeyIsKept(o, x);
    forall a | 0 <= a < |all|
      ensures Keeps(o', all[a], existing, fetched)
    {
      if a < |h| {
        KeepsOn(o', o, h[a], existing, fetched);
      } else {
        KeepsOn(o', x, g[a - |h|], existing, fetched);
      }
    }
  }

  lemma EntryOf(o': Message, o: Message, x: Message, h: seq<Source>, g: seq<Source>, existing: seq<Message>, fetched: seq<Message>)
    requires Entry(o, h, existing, fetched) && Entry(x, g, existing, fetched)
    requires forall a, b :: 0 <= a < |h| && 0 <= b < |g| ==> Place(h[a], existing) < Place(g[b], existing)
    requires KeepsAll(o', h + g, existing, fetched) && Made(o', Copies(h, existing, fetched) + Copies(g, existing, fetched))
    requires Keys(o') <= KeysOfAll(Copies(h, existing, fetched) + Copies(g, existing, fetched))
    requires AllExist(h + g, existing, fetched) && AllTouch(h + g, existing, fetched)
    ensures Entry(o', h + g, existing, fetched)
  {
    CopiesOfBoth(h, g, existing, fetched);
    RisingBoth(h, g, existing);
    assert |h + g| > 1;
  }

  lemma RisingBoth(h: seq<Source>, g: seq<Source>, existing: seq<Message>)
    requires Rising(h, existing) && Rising(g, existing)
    requires forall a, b :: 0 <= a < |h| && 0 <= b < |g| ==> Place(h[a], existing) < Place(g[b], existing)
    ensures Rising(h + g, existing)
  {
  }

  /** Two messages that are merged because they share a key. */
  lemma EntryMerge(o: Message, x: Message, h: seq<Source>, g: seq<Source>, existing: seq<Message>, fetched: seq<Message>)
    requires Entry(o, h, existing, fetched) && Entry(x, g, existing, fetched) && SameIdentity(o, x)
    requires forall a, b :: 0 <= a < |h| && 0 <= b < |g| ==> Place(h[a], existing) < Place(g[b], existing)
    ensures Entry(MergeSame(o, x), h + g, existing, fetched)
  {
    CopiesOfBoth(h, g, existing, fetched);
    MergeKeepsAll(o, x, h, g, existing, fetched);
    MadeMerge(o, x, Copies(h, existing, fetched), Copies(g, existing, fetched));
    MergedKeysKnown(o, x);
    var p, q := CommonCopies(o, x, h, g, existing, fetched);
    TouchingBoth(h, g, p, q, existing, fetched);
    KeysOfBoth(Copies(h, existing, fetched), Copies(g, existing, fetched));
    EntryOf(MergeSame(o, x), o, x, h, g, existing, fetched);
  }

  lemma HadEntry(existing: seq<Message>, fetched: seq<Message>, i: nat)
    requires Exists(Had(i), existing, fetched)
    ensures Entry(existing[i], [Had(i)], existing, fetched)
  {
    MadeOfItself(existing[i]);
    assert Copies([Had(i)], existing, fetched) == [existing[i]];
    OneKeys(existing[i]);
  }

  lemma GotEntry(existing: seq<Message>, fetched: seq<Message>, n: nat)
    requires Exists(Got(n), existing, fetched)
    ensures Entry(Normalized(fetched[n]), [Got(n)], existing, fetched)
  {
    MadeOfItself(fetched[n]);
    NormalizedAnswers(fetched[n]);
    assert Copies([Got(n)], existing, fetched) == [fetched[n]];
    OneKeys(fetched[n]);
  }

  lemma AteKeys(local: Message, m: Message)
    ensures Keys(MergeSame(local, Normalized(m))) <= KeysOfAll([local] + [m])
  {
    MergedKeysKnown(local, Normalized(m));
    NormalizedAnswers(m);
    OneKeys(local);
    OneKeys(m);
    KeysOfBoth([local], [m]);
  }

  lemma AteKeeps(existing: seq<Message>, fetched: seq<Message>, local: Message, n: nat)
    requires Exists(Got(n), existing, fetched)
    ensures KeepsAll(MergeSame(local, Normalized(fetched[n])), [Ate(local, n), Got(n)], existing, fetched)
  {
    TakenOver(local, fetched[n]);
    BothKept(MergeSame(local, Normalized(fetched[n])), existing, fetched, local, n);
  }

  lemma BothKept(x: Message, existing: seq<Message>, fetched: seq<Message>, local: Message, n: nat)
    requires Exists(Got(n), existing, fetched) && TakesOver(x, local, fetched[n])
    ensures KeepsAll(x, [Ate(local, n), Got(n)], existing, fetched)
  {
  }

  lemma AteTouch(existing: seq<Message>, fetched: seq<Message>, local: Message, n: nat)
    requires Exists(Got(n), existing, fetched)
    ensures var h := [Ate(local, n), Got(n)];
            && AllExist(h, existing, fetched) && Rising(h, existing) && AllTouch(h, existing, fetched)
            && Copies(h, existing, fetched) == [local] + [fetched[n]]
  {
    var h := [Ate(local, n), Got(n)];
    assert Touch(h[0], h[1], existing, fetched) && Touch(h[1], h[0], existing, fetched);
  }

  lemma AteEntry(existing: seq<Message>, fetched: seq<Message>, local: Message, n: nat)
    requires Exists(Got(n), existing, fetched)
    ensures Entry(MergeSame(local, Normalized(fetched[n])), [Ate(local, n), Got(n)], existing, fetched)
  {
    MadeOfItself(local);
    MadeOfItself(fetched[n]);
    MadeMerge(local, Normalized(fetched[n]), [local], [fetched[n]]);
    AteKeys(local, fetched[n]);
    AteKeeps(existing, fetched, local, n);
    AteTouch(existing, fetched, local, n);
  }

  ghost predicate Entries(confirmed: seq<Message>, hs: seq<seq<Source>>, existing: seq<Message>, fetched: seq<Message>) {
    |hs| == |confirmed| && forall k :: 0 <= k < |hs| ==> Entry(confirmed[k], hs[k], existing, fetched)
  }

  ghost predicate PlacesBelow(hs: seq<seq<Source>>, existing: seq<Message>, bound: nat) {
    forall k, s :: 0 <= k < |hs| && s in hs[k] ==> Place(s, existing) < bound
  }

  ghost predicate InOneOnly(hs: seq<seq<Source>>) {
    forall k, l, s :: 0 <= k < |hs| && 0 <= l < |hs| && s in hs[k] && s in hs[l] ==> k == l
  }

  /** The histories of a list of confirmed messages: everything merged so far is below `bound` and in one history only. */
  ghost predicate Traced(confirmed: seq<Message>, hs: seq<seq<Source>>, existing: seq<Message>, fetched: seq<Message>, bound: nat) {
    Entries(confirmed, hs, existing, fetched) && PlacesBelow(hs, existing, bound) && InOneOnly(hs)
  }

  ghost predicate Traces(hs: seq<seq<Source>>, s: Source) {
    exists k :: 0 <= k < |hs| && s in hs[k]
  }

  ghost function UpsertHistory(confirmed: seq<Message>, hs: seq<seq<Source>>, x: Message, g: seq<Source>): seq<seq<Source>>
    requires |hs| == |confirmed|
  {
    var j := FindSame(confirmed, x);
    if j < |hs| then hs[j := hs[j] + g] else hs + [g]
  }

  lemma UpsertEntries(confirmed: seq<Message>, hs: seq<seq<Source>>, x: Message, g: seq<Source>, existing: seq<Message>, fetched: seq<Message>, bound: nat)
    requires Entries(confirmed, hs, existing, fetched) && PlacesBelow(hs, existing, bound) && Entry(x, g, existing, fetched)
    requires forall b :: 0 <= b < |g| ==> bound <= Place(g[b], existing)
    ensures Entries(Upsert(confirmed, x), UpsertHistory(confirmed, hs, x, g), existing, fetched)
  {
    var j := FindSame(confirmed, x);
    if j < |confirmed| {
      forall a, b | 0 <= a < |hs[j]| && 0 <= b < |g|
        ensures Place(hs[j][a], existing) < Place(g[b], existing)
      {
        assert hs[j][a] in hs[j];
      }
      EntryMerge(confirmed[j], x, hs[j], g, existing, fetched);
    }
  }

  /** A source of one of the new histories is an old one in its place, or a new one at the place of the upsert. */
  lemma OnlyNew(confirmed: seq<Message>, hs: seq<seq<Source>>, x: Message, g: seq<Source>, existing: seq<Message>, bound: nat)
    requires |hs| == |confirmed| && PlacesBelow(hs, existing, bound) && forall b :: 0 <= b < |g| ==> bound <= Place(g[b], existing)
    ensures var hs' := UpsertHistory(confirmed, hs, x, g);
            forall k, s :: 0 <= k < |hs'| && s in hs'[k] ==>
              if Place(s, existing) < bound then k < |hs| && s in hs[k] else k == FindSame(confirmed, x) && s in g
  {
    var hs' := UpsertHistory(confirmed, hs, x, g);
    forall k, s | 0 <= k < |hs'| && s in hs'[k]
      ensures if Place(s, existing) < bound then k < |hs| && s in hs[k] else k == FindSame(confirmed, x) && s in g
    {
      if !(k < |hs| && s in hs[k]) {
        var b :| 0 <= b < |g| && g[b] == s;
      }
    }
  }

  lemma UpsertPlaces(confirmed: seq<Message>, hs: seq<seq<Source>>, x: Message, g: seq<Source>, existing: seq<Message>, bound: nat, bound': nat)
    requires |hs| == |confirmed| && PlacesBelow(hs, existing, bound) && InOneOnly(hs) && bound <= bound'
    requires forall b :: 0 <= b < |g| ==> bound <= Place(g[b], existing) < bound'
    ensures PlacesBelow(UpsertHistory(confirmed, hs, x, g), existing, bound') && InOneOnly(UpsertHistory(confirmed, hs, x, g))
  {
    OnlyNew(confirmed, hs, x, g, existing, bound);
    var hs' := UpsertHistory(confirmed, hs, x, g);
    forall k, s | 0 <= k < |hs'| && s in hs'[k]
      ensures Place(s, existing) < bound'
    {
      if Place(s, existing) >= bound {
        var b :| 0 <= b < |g| && g[b] == s;
      }
    }
  }

  lemma UpsertTraced(confirmed: seq<Message>, hs: seq<seq<Source>>, x: Message, g: seq<Source>,
                     existing: seq<Message>, fetched: seq<Message>, bound: nat, bound': nat)
    requires Traced(confirmed, hs, existing, fetched, bound) && Entry(x, g, existing, fetched) && bound <= bound'
    requires forall b :: 0 <= b < |g| ==> bound <= Place(g[b], existing) < bound'
    ensures Traced(Upsert(confirmed, x), UpsertHistory(confirmed, hs, x, g), existing, fetched, bound')
  {
    UpsertEntries(confirmed, hs, x, g, existing, fetched, bound);
    UpsertPlaces(confirmed, hs, x, g, existing, bound, bound');
  }

  lemma UpsertTraces(confirmed: seq<Message>, hs: seq<seq<Source>>, x: Message, g: seq<Source>)
    requires |hs| == |confirmed|
    ensures forall s :: Traces(UpsertHistory(confirmed, hs, x, g), s) <==> Traces(hs, s) || s in g
  {
    var j, hs' := FindSame(confirmed, x), UpsertHistory(confirmed, hs, x, g);
    forall s
      ensures Traces(hs', s) <==> Traces(hs, s) || s in g
    {
      if Traces(hs, s) {
        var k :| 0 <= k < |hs| && s in hs[k];
        assert s in hs'[k];
      }
      if s in g {
        assert s in hs'[j];
      }
    }
  }

  // ------------------------------------------------------------------
  // The merge of two lists
  // ------------------------------------------------------------------

  function PendingOf(ms: seq<Message>): seq<Message> {
    if ms == [] then []
    else
      var rest := PendingOf(ms[..|ms| - 1]);
      if Pending(ms[|ms| - 1]) then rest + [ms[|ms| - 1]] else rest
  }

  /** Exactly the pending ones, each as often as it is there. */
  lemma {:induction false} PendingExactly(ms: seq<Message>, m: Message)
    ensures multiset(PendingOf(ms))[m] == if Pending(m) then multiset(ms)[m] else 0
  {
    if ms != [] {
      PendingExactly(ms[..|ms| - 1], m);
      assert ms == ms[..|ms| - 1] + [ms[|ms| - 1]];
    }
  }

  /** A pending message and the place of the fetched one that consumed it. */
  datatype Consumption = Consumption(local: Message, taker: nat)

  ghost function Consumed(eaten: seq<Consumption>): multiset<Message> {
    if eaten == [] then multiset{} else Consumed(eaten[..|eaten| - 1]) + multiset{eaten[|eaten| - 1].local}
  }

  /** Each fetched message consumes at most one. */
  ghost predicate OneEach(eaten: seq<Consumption>, n: nat) {
    && (forall i :: 0 <= i < |eaten| ==> eaten[i].taker < n)
    && (forall i, j :: 0 <= i < j < |eaten| ==> eaten[i].taker < eaten[j].taker)
  }

  /** Exactly these went into confirmed messages: existing ones up to `e`, fetched ones up to `n`, and what was consumed. */
  ghost predicate Covered(hs: seq<seq<Source>>, existing: seq<Message>, fetched: seq<Message>, e: nat, n: nat, eaten: seq<Consumption>) {
    && (forall i: nat :: Traces(hs, Had(i)) <==> i < e && Exists(Had(i), existing, fetched))
    && (forall i: nat :: Traces(hs, Got(i)) <==> i < n && Exists(Got(i), existing, fetched))
    && (forall local, i: nat :: Traces(hs, Ate(local, i)) <==> Consumption(local, i) in eaten)
  }

  /** The already confirmed messages, with copies of one message merged. */
  method ConfirmedOf(existing: seq<Message>, ghost fetched: seq<Message>) returns (confirmed: seq<Message>, ghost hs: seq<seq<Source>>)
    ensures Traced(confirmed, hs, existing, fetched, |existing|) && Covered(hs, existing, fetched, |existing|, 0, [])
  {
    confirmed, hs := [], [];
    for n := 0 to |existing|
      invariant Traced(confirmed, hs, existing, fetched, n) && Covered(hs, existing, fetched, n, 0, [])
    {
      var message := existing[n];
      if !Pending(message) && Text(message.id) != "" {
        HadNext(confirmed, hs, existing, fetched, n);
        hs := UpsertHistory(confirmed, hs, message, [Had(n)]);
        confirmed := Upsert(confirmed, message);
      }
    }
  }

  lemma CoveredHad(hs: seq<seq<Source>>, hs': seq<seq<Source>>, existing: seq<Message>, fetched: seq<Message>, n: nat)
    requires Covered(hs, existing, fetched, n, 0, []) && Exists(Had(n), existing, fetched)
    requires forall s :: Traces(hs', s) <==> Traces(hs, s) || s in [Had(n)]
    ensures Covered(hs', existing, fetched, n + 1, 0, [])
  {
  }

  lemma HadNext(confirmed: seq<Message>, hs: seq<seq<Source>>, existing: seq<Message>, fetched: seq<Message>, n: nat)
    requires Traced(confirmed, hs, existing, fetched, n) && Covered(hs, existing, fetched, n, 0, []) && Exists(Had(n), existing, fetched)
    ensures var hs' := UpsertHistory(confirmed, hs, existing[n], [Had(n)]);
            Traced(Upsert(confirmed, existing[n]), hs', existing, fetched, n + 1) && Covered(hs', existing, fetched, n + 1, 0, [])
  {
    HadEntry(existing, fetched, n);
    UpsertTraced(confirmed, hs, existing[n], [Had(n)], existing, fetched, n, n + 1);
    UpsertTraces(confirmed, hs, existing[n], [Had(n)]);
    CoveredHad(hs, UpsertHistory(confirmed, hs, existing[n], [Had(n)]), existing, fetched, n);
  }

  /** One fetched message: it consumes a pending one or none, and joins the confirmed. */
  method TakeFetched(confirmed: seq<Message>, pending: seq<Message>, message: Message)
      returns (confirmed': seq<Message>, pending': seq<Message>, k: nat, x: Message)
    ensures k <= |pending| && Match(pending, Normalized(message), k)
    ensures pending' == if k < |pending| then pending[..k] + pending[k + 1..] else pending
    ensures x == if k < |pending| then MergeSame(pending[k], Normalized(message)) else Normalized(message)
    ensures confirmed' == Upsert(confirmed, x)
  {
    var normalized := Normalized(message);
    k := FindMatch(pending, normalized);
    pending' := pending;
    if k < |pending| {
      pending' := pending[..k] + pending[k + 1..];
      normalized := MergeSame(pending[k], normalized);
    }
    x := normalized;
    confirmed' := Upsert(confirmed, normalized);
  }

  /** What one fetched message adds answers for it and takes over from what it consumed. */
  lemma TakenOver(local: Message, m: Message)
    ensures TakesOver(MergeSame(local, Normalized(m)), local, m) && AnswersFor(MergeSame(local, Normalized(m)), m)
  {
    var n := Normalized(m);
    NormalizedAnswers(m);
    NormalizedLosesSame(local, m);
    MergeSameStandsFor(local, n);
  }

  lemma Removed(pending: seq<Message>, k: nat)
    requires k < |pending|
    ensures multiset(pending) == multiset(pending[..k] + pending[k + 1..]) + multiset{pending[k]}
  {
    assert pending == pending[..k] + [pending[k]] + pending[k + 1..];
  }

  lemma ConsumedSnoc(eaten: seq<Consumption>, c: Consumption)
    ensures Consumed(eaten + [c]) == Consumed(eaten) + multiset{c.local}
  {
    assert (eaten + [c])[..|eaten|] == eaten;
  }

  lemma OneMoreEaten(eaten: seq<Consumption>, local: Message, n: nat, pending0: seq<Message>, pending: seq<Message>, k: nat)
    requires OneEach(eaten, n) && k < |pending| && local == pending[k]
    requires multiset(pending0) == multiset(pending) + Consumed(eaten)
    ensures OneEach(eaten + [Consumption(local, n)], n + 1)
    ensures multiset(pending0) == multiset(pending[..k] + pending[k + 1..]) + Consumed(eaten + [Consumption(local, n)])
  {
    Removed(pending, k);
    ConsumedSnoc(eaten, Consumption(local, n));
  }

  /** The copies that come with fetched message `n`. */
  ghost function Arrivals(pending: seq<Message>, k: nat, n: nat): seq<Source> {
    if k < |pending| then [Ate(pending[k], n), Got(n)] else [Got(n)]
  }

  ghost function Eats(eaten: seq<Consumption>, pending: seq<Message>, k: nat, n: nat): seq<Consumption> {
    if k < |pending| then eaten + [Consumption(pending[k], n)] else eaten
  }

  lemma CoveredGot(hs: seq<seq<Source>>, hs': seq<seq<Source>>, pending: seq<Message>, k: nat,
                   existing: seq<Message>, fetched: seq<Message>, e: nat, n: nat, eaten: seq<Consumption>)
    requires Covered(hs, existing, fetched, e, n, eaten) && Exists(Got(n), existing, fetched)
    requires forall s :: Traces(hs', s) <==> Traces(hs, s) || s in Arrivals(pending, k, n)
    ensures Covered(hs', existing, fetched, e, n + 1, Eats(eaten, pending, k, n))
  {
  }

  lemma ArrivalPlaces(pending: seq<Message>, k: nat, n: nat, existing: seq<Message>)
    ensures forall b :: 0 <= b < |Arrivals(pending, k, n)| ==>
              |existing| + 2 * n <= Place(Arrivals(pending, k, n)[b], existing) < |existing| + 2 * (n + 1)
  {
  }

  lemma FetchedNext(confirmed: seq<Message>, hs: seq<seq<Source>>, x: Message, pending: seq<Message>, k: nat,
                    existing: seq<Message>, fetched: seq<Message>, e: nat, n: nat, eaten: seq<Consumption>)
    requires Traced(confirmed, hs, existing, fetched, |existing| + 2 * n) && Covered(hs, existing, fetched, e, n, eaten)
    requires Exists(Got(n), existing, fetched)
    requires x == if k < |pending| then MergeSame(pending[k], Normalized(fetched[n])) else Normalized(fetched[n])
    ensures var hs' := UpsertHistory(confirmed, hs, x, Arrivals(pending, k, n));
            && Traced(Upsert(confirmed, x), hs', existing, fetched, |existing| + 2 * (n + 1))
            && Covered(hs', existing, fetched, e, n + 1, Eats(eaten, pending, k, n))
  {
    var g := Arrivals(pending, k, n);
    if k < |pending| {
      AteEntry(existing, fetched, pending[k], n);
    } else {
      GotEntry(existing, fetched, n);
    }
    ArrivalPlaces(pending, k, n, existing);
    UpsertTraced(confirmed, hs, x, g, existing, fetched, |existing| + 2 * n, |existing| + 2 * (n + 1));
    UpsertTraces(confirmed, hs, x, g);
    CoveredGot(hs, UpsertHistory(confirmed, hs, x, g), pending, k, existing, fetched, e, n, eaten);
  }

  lemma SkippedNext(confirmed: seq<Message>, hs: seq<seq<Source>>, existing: seq<Message>, fetched: seq<Message>, e: nat, n: nat, eaten: seq<Consumption>)
    requires Traced(confirmed, hs, existing, fetched, |existing| + 2 * n) && Covered(hs, existing, fetched, e, n, eaten)
    requires !Exists(Got(n), existing, fetched)
    ensures Traced(confirmed, hs, existing, fetched, |existing| + 2 * (n + 1)) && Covered(hs, existing, fetched, e, n + 1, eaten)
  {
  }

  /** The fetched messages, in order. */
  method TakeAllFetched(confirmed0: seq<Message>, pending0: seq<Message>, fetched: seq<Message>,
                        ghost hs0: seq<seq<Source>>, ghost existing: seq<Message>, ghost e: nat)
      returns (confirmed: seq<Message>, rest: seq<Message>, ghost eaten: seq<Consumption>, ghost hs: seq<seq<Source>>)
    requires Traced(confirmed0, hs0, existing, fetched, |existing|) && Covered(hs0, existing, fetched, e, 0, [])
    ensures multiset(pending0) == multiset(rest) + Consumed(eaten) && OneEach(eaten, |fetched|)
    ensures Traced(confirmed, hs, existing, fetched, |existing| + 2 * |fetched|)
    ensures Covered(hs, existing, fetched, e, |fetched|, eaten)
  {
    confirmed, rest, eaten, hs := confirmed0, pending0, [], hs0;
    for n := 0 to |fetched|
      invariant multiset(pending0) == multiset(rest) + Consumed(eaten) && OneEach(eaten, n)
      invariant Traced(confirmed, hs, existing, fetched, |existing| + 2 * n)
      invariant Covered(hs, existing, fetched, e, n, eaten)
    {
      if Text(fetched[n].id) == "" {
        SkippedNext(confirmed, hs, existing, fetched, e, n, eaten);
        continue;
      }
      ghost var before, pending := confirmed, rest;
      var k, x;
      confirmed, rest, k, x := TakeFetched(confirmed, rest, fetched[n]);
      FetchedNext(before, hs, x, pending, k, existing, fetched, e, n, eaten);
      if k < |pending| {
        OneMoreEaten(eaten, pending[k], n, pending0, pending, k);
      }
      hs := UpsertHistory(before, hs, x, Arrivals(pending, k, n));
      eaten := Eats(eaten, pending, k, n);
    }
  }

  /**
    mergeMessageLists, one call. The result is the confirmed messages and the surviving pending ones, sorted by time
    and stable. Every pending message survives or was consumed, each by a fetched message of its own. Every confirmed
    message has its history: the copies it is made of, in order, each field from the last copy that has it. Every fetched
    message with an id, every pending one consumed and, unless the list is replaced, every confirmed one with an id is in
    exactly one history, and the message keeps its keys, its status and a recall; but a lone key may go with a fetched
    message that has none of its own.
   */
  method MergeMessageLists(existing: seq<Message>, fetched: seq<Message>, replace: bool)
      returns (out: seq<Message>, ghost confirmed: seq<Message>, ghost rest: seq<Message>, ghost eaten: seq<Consumption>,
               ghost hs: seq<seq<Source>>)
    ensures Ordered(out, TimeOf) && multiset(out) == multiset(confirmed + rest)
    ensures forall t :: AtTime(out, TimeOf, t) == AtTime(confirmed + rest, TimeOf, t)
    ensures multiset(PendingOf(existing)) == multiset(rest) + Consumed(eaten) && OneEach(eaten, |fetched|)
    ensures Traced(confirmed, hs, existing, fetched, |existing| + 2 * |fetched|)
    ensures Covered(hs, existing, fetched, if replace then 0 else |existing|, |fetched|, eaten)
  {
    var pending := PendingOf(existing);
    var confirmed0 := [];
    ghost var hs0 := [];
    if !replace {
      confirmed0, hs0 := ConfirmedOf(existing, fetched);
    }
    var all, left;
    all, left, eaten, hs := TakeAllFetched(confirmed0, pending, fetched, hs0, existing, if replace then 0 else |existing|);
    confirmed, rest := all, left;
    SortedIsStable(all + left, TimeOf);
    out := Sorted(all + left, TimeOf);
  }

  // ------------------------------------------------------------------
  // What the histories mean
  // ------------------------------------------------------------------

  /**
    A fetched message that is in the list of confirmed messages, not recalled, shows the content, media and time of the
    last copy of it that has them, and nothing older.
   */
  lemma ShowsLastCopy(confirmed: seq<Message>, hs: seq<seq<Source>>, existing: seq<Message>, fetched: seq<Message>, bound: nat, k: nat, a: nat)
    requires Traced(confirmed, hs, existing, fetched, bound) && k < |hs| && a < |hs[k]| && !Recalled(confirmed[k])
    ensures var o, m := confirmed[k], CopyOf(hs[k][a], existing, fetched);
            var later := Copies(hs[k], existing, fetched)[a + 1..];
            && ((forall c :: c in later ==> c.content.Absent?) && m.content.Is? ==> o.content == m.content)
            && ((forall c :: c in later ==> c.media.Absent?) && m.media.Is? ==> o.media == m.media)
            && ((forall c :: c in later ==> c.createdAt.Absent?) && m.createdAt.Is? ==> o.createdAt == m.createdAt)
  {
    var cs := Copies(hs[k], existing, fetched);
    assert Entry(confirmed[k], hs[k], existing, fetched);
    LastGivenIs(confirmed[k].content, cs, ContentOf, a);
    LastGivenIs(confirmed[k].media, cs, MediaOf, a);
    LastGivenIs(confirmed[k].createdAt, cs, CreatedOf, a);
  }

  lemma LastGivenIs<T>(v: Opt<T>, cs: seq<Message>, f: Message -> Opt<T>, a: nat)
    requires LastGiven(v, cs, f) && a < |cs|
    ensures f(cs[a]).Is? && (forall c :: c in cs[a + 1..] ==> f(c).Absent?) ==> v == f(cs[a])
  {
    if f(cs[a]).Is? && forall c :: c in cs[a + 1..] ==> f(c).Absent? {
      forall j | a < j < |cs|
        ensures f(cs[j]).Absent?
      {
        assert cs[j] == cs[a + 1..][j - a - 1];
      }
      if v.Is? {
        var i :| 0 <= i < |cs| && f(cs[i]) == v && forall j :: i < j < |cs| ==> f(cs[j]).Absent?;
      }
    }
  }

  lemma LoneSource(h: seq<Source>, a: nat, n: nat, existing: seq<Message>, fetched: seq<Message>)
    requires AllExist(h, existing, fetched) && AllTouch(h, existing, fetched) && Rising(h, existing) && a < |h| && h[a] == Got(n)
    requires forall b :: 0 <= b < |h| && b != a ==> !SameIdentity(CopyOf(h[b], existing, fetched), fetched[n])
    requires forall b :: 0 <= b < |h| ==> !(h[b].Ate? && h[b].n == n)
    ensures h == [Got(n)]
  {
    if |h| > 1 {
      assert TouchesOther(h, a, existing, fetched);
      var b :| 0 <= b < |h| && b != a && Touch(h[a], h[b], existing, fetched);
      SameBothWays(fetched[n], CopyOf(h[b], existing, fetched));
    }
  }

  lemma SameBothWays(m: Message, o: Message)
    ensures SameIdentity(m, o) <==> SameIdentity(o, m)
  {
    assert Keys(m) * Keys(o) == Keys(o) * Keys(m);
  }

  /**
    A fetched message that shares no key with another copy and has consumed none comes out with all its fields, its
    status made explicit and, if it was recalled, without its content.
   */
  lemma AloneComesOut(confirmed: seq<Message>, hs: seq<seq<Source>>, existing: seq<Message>, fetched: seq<Message>, bound: nat, k: nat, n: nat)
    requires Traced(confirmed, hs, existing, fetched, bound) && k < |hs| && Got(n) in hs[k]
    requires forall s :: s in hs[k] && s != Got(n) ==> Exists(s, existing, fetched) && !SameIdentity(CopyOf(s, existing, fetched), fetched[n])
    requires forall s :: s in hs[k] ==> !(s.Ate? && s.n == n)
    ensures n < |fetched| && hs[k] == [Got(n)]
    ensures var m := fetched[n];
            confirmed[k] == if m.recalled == Is(true) then m.(status := Is(Canonical(m)), content := Is(""), media := Is(""))
                            else m.(status := Is(Canonical(m)))
  {
    var h := hs[k];
    assert Entry(confirmed[k], h, existing, fetched);
    var a :| 0 <= a < |h| && h[a] == Got(n);
    assert Exists(h[a], existing, fetched);
    forall b | 0 <= b < |h|
      ensures b != a ==> !SameIdentity(CopyOf(h[b], existing, fetched), fetched[n])
      ensures !(h[b].Ate? && h[b].n == n)
    {
      assert h[b] in h;
      assert Rising(h, existing) && (b < a ==> Place(h[b], existing) < Place(h[a], existing));
    }
    LoneSource(h, a, n, existing, fetched);
  }
}
