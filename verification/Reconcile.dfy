/**
  Publishing rights in the hall: LiveKit's permission semantics (backend/internal/livekit/types.go), the rights
  an identity is entitled to (backend/internal/hall/media.go) and the bounded reconcile round that enforces them
  (backend/internal/hall/reconcile.go).
 */
module Permissions {
  datatype Source = Microphone | Camera | ScreenShare | ScreenShareAudio | UnknownSource

  datatype Permission = Permission(canSubscribe: bool, canPublish: bool, canPublishData: bool,
                                   sources: seq<Source>, canUpdateMetadata: bool, hidden: bool)

  datatype MaybePermission = NoPermission | Perm(p: Permission)

  /** LiveKit: nothing without canPublish; an empty source list means every source. */
  predicate CanPublishSource(perm: MaybePermission, source: Source) {
    match perm
    case NoPermission => false
    case Perm(p) => p.canPublish && (|p.sources| == 0 || source in p.sources)
  }

  function PermissionFor(sources: seq<Source>): Permission {
    Permission(true, |sources| > 0, false, sources, false, false)
  }

  /** What UpdateParticipant is sent. */
  function Request(p: Permission): Permission {
    Permission(p.canSubscribe, p.canPublish && |p.sources| > 0, false, p.sources, false, false)
  }

  /** A granted permission allows exactly the listed sources, even when there are none, and nothing else. */
  lemma GrantIsExact(sources: seq<Source>)
    ensures forall src :: CanPublishSource(Perm(Request(PermissionFor(sources))), src) <==> src in sources
    ensures var p := Request(PermissionFor(sources)); p.canSubscribe && !p.canPublishData && !p.canUpdateMetadata && !p.hidden
  {
  }

  /** A permission with an empty list allows every source, no permission at all none. */
  lemma EmptyListMeansAll(p: Permission, src: Source)
    requires p.canPublish && p.sources == []
    ensures CanPublishSource(Perm(p), src) && !CanPublishSource(NoPermission, src) && !CanPublishSource(Perm(p.(canPublish := false)), src)
  {
  }

  /** Whatever permission is requested, LiveKit is never told "may publish" with an empty list, which means all. */
  lemma NeverGrantsAll(p: Permission)
    ensures forall src :: CanPublishSource(Perm(Request(p)), src) ==> src in p.sources
  {
  }
}

module Hall {
  import opened Permissions
  import opened Slots
  import opened Collections

  const MAX_RECONCILE_CALLS := 40

  datatype Settings = Settings(enabled: bool, videoEnabled: bool, voiceEnabled: bool, maxSpeakers: int, maxCameras: int)

  datatype Track = Track(source: Source, muted: bool)

  datatype Participant = Participant(perm: MaybePermission, tracks: seq<Track>)

  datatype SlotKind = SpeakerSlot | CameraSlot

  datatype MediaResult =
    | MediaSet(on: bool, used: nat)
    | HallClosed
    | VideoDisabled
    | VoiceDisabled
    | MediaForbidden
    | SlotsFull(fullUsed: nat)
    | GrantFailed

  datatype Stats = Stats(released: nat, renewed: nat, revoked: nat, removed: nat)

  // ------------------------------------------------------------------
  // Identities
  // ------------------------------------------------------------------

  /** v_ and 20 lower-case hexadecimal digits. */
  predicate IsVisitor(id: Id) {
    |id| == 22 && id[0] == 'v' && id[1] == '_'
    && forall i :: 2 <= i < 22 ==> '0' <= id[i] <= '9' || 'a' <= id[i] <= 'f'
  }

  /** a_ and 1 to 19 decimal digits. */
  predicate IsAgent(id: Id) {
    3 <= |id| <= 21 && id[0] == 'a' && id[1] == '_' && forall i :: 2 <= i < |id| ==> '0' <= id[i] <= '9'
  }

  predicate ValidIdentity(id: Id) {
    IsVisitor(id) || IsAgent(id)
  }

  // ------------------------------------------------------------------
  // Entitlement
  // ------------------------------------------------------------------

  /** Everything a right depends on. */
  datatype Grounds = Grounds(settings: Settings, speakers: State, cameras: State, agentMuted: set<Id>, silenced: set<Id>)

  ghost predicate HasMic(g: Grounds, id: Id, now: int) {
    g.settings.voiceEnabled && if IsAgent(id) then id !in g.agentMuted else Holds(g.speakers, now, id)
  }

  ghost predicate HasCamera(g: Grounds, id: Id, now: int) {
    g.settings.videoEnabled && Holds(g.cameras, now, id)
  }

  /** The sources `desiredSources` lists, in its order. */
  function Sources(mic: bool, camera: bool): (sources: seq<Source>)
    ensures Microphone in sources <==> mic
    ensures Camera in sources <==> camera
    ensures forall src :: src in sources ==> src == Microphone || src == Camera
  {
    if mic && camera then [Microphone, Camera] else if mic then [Microphone] else if camera then [Camera] else []
  }

  ghost function Desired(g: Grounds, id: Id, now: int): seq<Source> {
    Sources(HasMic(g, id, now), HasCamera(g, id, now))
  }

  /** What is due once a blocked visitor's slots are taken away. */
  ghost function Due(g: Grounds, id: Id, now: int): seq<Source> {
    if IsVisitor(id) && id in g.silenced then [] else Desired(g, id, now)
  }

  /** A right beyond `want`: a source not in it, screen sharing, data or metadata. */
  predicate Excess(p: Participant, want: seq<Source>) {
    || (CanPublishSource(p.perm, Microphone) && Microphone !in want)
    || (CanPublishSource(p.perm, Camera) && Camera !in want)
    || CanPublishSource(p.perm, ScreenShare) || CanPublishSource(p.perm, ScreenShareAudio)
    || (p.perm.Perm? && (p.perm.p.canPublishData || p.perm.p.canUpdateMetadata))
  }

  predicate Publishing(p: Participant, src: Source) {
    exists i :: 0 <= i < |p.tracks| && p.tracks[i] == Track(src, false)
  }

  /** Tracks of a source that is not allowed are muted. */
  function MuteResidual(tracks: seq<Track>, allowed: seq<Source>): seq<Track> {
    seq(|tracks|, i requires 0 <= i < |tracks| =>
      if (tracks[i].source == Microphone || tracks[i].source == Camera) && tracks[i].source !in allowed
      then tracks[i].(muted := true) else tracks[i])
  }

  /** A participant after syncPermission. */
  function Synced(p: Participant, sources: seq<Source>): Participant {
    Participant(Perm(Request(PermissionFor(sources))), MuteResidual(p.tracks, sources))
  }

  /** Permission synchronisation ends every excess, for good as long as the grounds stay. */
  lemma SyncedHasNoExcess(p: Participant, sources: seq<Source>)
    requires forall src :: src in sources ==> src == Microphone || src == Camera
    ensures !Excess(Synced(p, sources), sources)
    ensures forall src :: CanPublishSource(Synced(p, sources).perm, src) <==> src in sources
  {
    GrantIsExact(sources);
  }

  /** ... and what is published: of microphones and cameras only those listed, of anything else what was before. */
  lemma SyncedTracks(p: Participant, sources: seq<Source>, src: Source)
    ensures Unmuted(Synced(p, sources), src) <==> Unmuted(p, src) && (src in sources || (src != Microphone && src != Camera))
    ensures |Synced(p, sources).tracks| == |p.tracks|
    ensures forall i :: 0 <= i < |p.tracks| ==> Synced(p, sources).tracks[i].source == p.tracks[i].source
  {
    var q := Synced(p, sources);
    if Unmuted(p, src) && (src in sources || (src != Microphone && src != Camera)) {
      var i :| 0 <= i < |p.tracks| && p.tracks[i].source == src && !p.tracks[i].muted;
      assert q.tracks[i] == p.tracks[i];
    }
    if Unmuted(q, src) {
      var i :| 0 <= i < |q.tracks| && q.tracks[i].source == src && !q.tracks[i].muted;
      assert p.tracks[i].source == src && !p.tracks[i].muted;
    }
  }

  /** Exactly who offends: one in the room who is banned, may publish a source not due, or send data or metadata. */
  lemma OffendsExactly(g: Grounds, room: map<Id, Participant>, banned: set<Id>, id: Id, now: int)
    ensures id in Violators(g, room, banned, now) <==>
            && id in room && ValidIdentity(id)
            && (|| id in banned
                || (exists src :: src != UnknownSource && CanPublishSource(room[id].perm, src) && src !in Due(g, id, now))
                || (room[id].perm.Perm? && (room[id].perm.p.canPublishData || room[id].perm.p.canUpdateMetadata)))
  {
    assert ScreenShare !in Due(g, id, now) && ScreenShareAudio !in Due(g, id, now);
  }

  /** The two shapes of identity, and that none has both. */
  lemma IdentityShapes(id: Id)
    ensures IsVisitor(id) <==> |id| == 22 && id[..2] == "v_" && forall i :: 2 <= i < 22 ==> id[i] in "0123456789abcdef"
    ensures IsAgent(id) <==> 3 <= |id| <= 21 && id[..2] == "a_" && forall i :: 2 <= i < |id| ==> id[i] in "0123456789"
    ensures !(IsVisitor(id) && IsAgent(id))
  {
    assert forall c: char :: c in "0123456789" <==> '0' <= c <= '9';
    assert forall c: char :: c in "0123456789abcdef" <==> '0' <= c <= '9' || 'a' <= c <= 'f';
  }

  function SourceOf(kind: SlotKind): Source {
    if kind.SpeakerSlot? then Microphone else Camera
  }

  // ------------------------------------------------------------------
  // The round, on values
  // ------------------------------------------------------------------

  ghost predicate Violator(g: Grounds, room: map<Id, Participant>, banned: set<Id>, id: Id, now: int) {
    id in room && ValidIdentity(id) && (id in banned || Excess(room[id], Due(g, id, now)))
  }

  ghost function Violators(g: Grounds, room: map<Id, Participant>, banned: set<Id>, now: int): set<Id> {
    set id | id in room && Violator(g, room, banned, id, now)
  }

  /** The room after enforcing against `fixed`: banned ones removed, the others' permissions set to what is due. */
  ghost predicate Enforced(g: Grounds, room: map<Id, Participant>, room': map<Id, Participant>, banned: set<Id>, fixed: set<Id>, now: int) {
    && room'.Keys == room.Keys - (fixed * banned)
    && forall id :: id in room' ==> room'[id] == if id in fixed then Synced(room[id], Due(g, id, now)) else room[id]
  }

  lemma EnforceOne(g: Grounds, room0: map<Id, Participant>, room: map<Id, Participant>, room': map<Id, Participant>, banned: set<Id>,
                   fixed: set<Id>, id: Id, act: bool, now: int)
    requires Enforced(g, room0, room, banned, fixed, now) && id in room && id !in fixed
    requires room' == if !act then room else if id in banned then room - {id} else room[id := Synced(room[id], Due(g, id, now))]
    ensures Enforced(g, room0, room', banned, if act then fixed + {id} else fixed, now)
  {
  }

  /** Enforcing removes exactly the enforced identities from the violators. */
  lemma EnforcedLeaves(g: Grounds, room: map<Id, Participant>, room': map<Id, Participant>, banned: set<Id>, fixed: set<Id>, now: int)
    requires Enforced(g, room, room', banned, fixed, now)
    ensures Violators(g, room', banned, now) == Violators(g, room, banned, now) - fixed
  {
    forall id
      ensures id in Violators(g, room', banned, now) <==> id in Violators(g, room, banned, now) - fixed
    {
      if id in room {
        SyncedHasNoExcess(room[id], Due(g, id, now));
      }
    }
  }

  /** Nobody joins; whoever was no violator stays as is; whoever changed holds exactly what is due. */
  ghost predicate OnlyOffendersTouched(g: Grounds, room: map<Id, Participant>, room': map<Id, Participant>, v: set<Id>, now: int) {
    && room'.Keys <= room.Keys
    && (forall id :: id in room && id !in v ==> id in room' && room'[id] == room[id])
    && (forall id :: id in room' && room'[id] != room[id] ==> room'[id] == Synced(room[id], Due(g, id, now)))
  }

  lemma EnforcedTouches(g0: Grounds, g: Grounds, room: map<Id, Participant>, room': map<Id, Participant>, banned: set<Id>,
                        v: set<Id>, fixed: set<Id>, now: int)
    requires Enforced(g, room, room', banned, fixed, now) && fixed <= v && SameDue(g0, g, room.Keys, now)
    ensures OnlyOffendersTouched(g0, room, room', v, now)
  {
  }

  /** Grounds that give every identity of `ids` the same due. */
  ghost predicate SameDue(g: Grounds, g': Grounds, ids: set<Id>, now: int) {
    forall id :: id in ids ==> Due(g, id, now) == Due(g', id, now)
  }

  lemma SameHoldsSameDue(g: Grounds, g': Grounds, ids: set<Id>, now: int)
    requires g'.settings == g.settings && g'.agentMuted == g.agentMuted && g'.silenced == g.silenced
    requires g.settings.voiceEnabled ==> forall id :: id in ids ==> (Holds(g'.speakers, now, id) <==> Holds(g.speakers, now, id))
    requires g.settings.videoEnabled ==> forall id :: id in ids ==> (Holds(g'.cameras, now, id) <==> Holds(g.cameras, now, id))
    ensures SameDue(g, g', ids, now)
  {
  }

  lemma SameDueSameViolators(g: Grounds, g': Grounds, room: map<Id, Participant>, banned: set<Id>, now: int)
    requires SameDue(g, g', room.Keys, now)
    ensures Violators(g, room, banned, now) == Violators(g', room, banned, now)
  {
  }

  // ------------------------------------------------------------------
  // Leases in use
  // ------------------------------------------------------------------

  ghost predicate Unmuted(p: Participant, src: Source) {
    exists i :: 0 <= i < |p.tracks| && p.tracks[i].source == src && !p.tracks[i].muted
  }

  /** A blocked visitor, whose slots are to go. */
  ghost predicate Barred(g: Grounds, id: Id) {
    IsVisitor(id) && id in g.silenced
  }

  /** A visitor who is not blocked, publishes an unmuted microphone and holds a speaker slot. */
  ghost predicate Speaking(g: Grounds, room: map<Id, Participant>, id: Id, now: int) {
    id in room && IsVisitor(id) && id !in g.silenced && Unmuted(room[id], Microphone) && Holds(g.speakers, now, id)
  }

  /** One who publishes a camera that is on, with a slot, while cameras are on and who is no blocked visitor. */
  ghost predicate Filming(g: Grounds, room: map<Id, Participant>, id: Id, now: int) {
    && id in room && ValidIdentity(id) && !Barred(g, id) && g.settings.videoEnabled
    && Unmuted(room[id], Camera) && Holds(g.cameras, now, id)
  }

  ghost function OneIf(id: Id, b: bool): set<Id> {
    if b then {id} else {}
  }

  /** Whose slots a round over `ids` takes away, and whose leases it renews. */
  ghost function BarredOf(g: Grounds, banned: set<Id>, ids: seq<Id>): set<Id> {
    set x | x in ids && x !in banned && Barred(g, x)
  }

  ghost function SpeakingOf(g: Grounds, room: map<Id, Participant>, banned: set<Id>, ids: seq<Id>, now: int): set<Id> {
    set x | x in ids && x !in banned && Speaking(g, room, x, now)
  }

  ghost function FilmingOf(g: Grounds, room: map<Id, Participant>, banned: set<Id>, ids: seq<Id>, now: int): set<Id> {
    set x | x in ids && x !in banned && Filming(g, room, x, now)
  }

  /** The slots after a pass over `ids`. */
  ghost predicate Passed(g: Grounds, speakers: State, cameras: State, room: map<Id, Participant>, banned: set<Id>, ids: seq<Id>, now: int, lease: int) {
    && Rescored(g.speakers, speakers, BarredOf(g, banned, ids), SpeakingOf(g, room, banned, ids, now), now, lease)
    && Rescored(g.cameras, cameras, BarredOf(g, banned, ids), FilmingOf(g, room, banned, ids, now), now, lease)
  }

  /** ... and after one step of the pass. */
  ghost predicate Stepped(g: Grounds, speakers: State, cameras: State, room: map<Id, Participant>, banned: set<Id>, id: Id, now: int, lease: int) {
    && Rescored(g.speakers, speakers, OneIf(id, id !in banned && Barred(g, id)), OneIf(id, id !in banned && Speaking(g, room, id, now)), now, lease)
    && Rescored(g.cameras, cameras, OneIf(id, id !in banned && Barred(g, id)), OneIf(id, id !in banned && Filming(g, room, id, now)), now, lease)
  }

  lemma PassOne(g: Grounds, g1: Grounds, speakers: State, cameras: State, room: map<Id, Participant>, room1: map<Id, Participant>,
                banned: set<Id>, ids: seq<Id>, k: nat, now: int, lease: int)
    requires k < |ids| && ids[k] !in ids[..k] && ids[k] in room && ids[k] in room1 && room1[ids[k]] == room[ids[k]]
    requires g1.settings == g.settings && g1.silenced == g.silenced
    requires Passed(g, g1.speakers, g1.cameras, room, banned, ids[..k], now, lease)
    requires Stepped(g1, speakers, cameras, room1, banned, ids[k], now, lease)
    ensures Passed(g, speakers, cameras, room, banned, ids[..k + 1], now, lease)
  {
    var id, before := ids[k], ids[..k];
    TakeSnoc(ids, k);
    var barred := OneIf(id, id !in banned && Barred(g1, id));
    var speaking := OneIf(id, id !in banned && Speaking(g1, room1, id, now));
    var filming := OneIf(id, id !in banned && Filming(g1, room1, id, now));
    assert BarredOf(g, banned, ids[..k + 1]) == BarredOf(g, banned, before) + barred;
    assert SpeakingOf(g, room, banned, ids[..k + 1], now) == SpeakingOf(g, room, banned, before, now) + speaking;
    assert FilmingOf(g, room, banned, ids[..k + 1], now) == FilmingOf(g, room, banned, before, now) + filming;
    RescoredTwice(g.speakers, g1.speakers, speakers, BarredOf(g, banned, before), barred, SpeakingOf(g, room, banned, before, now), speaking, now, lease);
    RescoredTwice(g.cameras, g1.cameras, cameras, BarredOf(g, banned, before), barred, FilmingOf(g, room, banned, before, now), filming, now, lease);
  }

  /** Where the pass stands after `k` participants, `fixed` of them set right with `calls` calls. */
  ghost predicate PassedTo(g: Grounds, g': Grounds, room0: map<Id, Participant>, room: map<Id, Participant>, banned: set<Id>,
                           ids: seq<Id>, k: nat, fixed: set<Id>, calls: nat, now: int, lease: int)
    requires k <= |ids|
  {
    var v := Violators(g, room0, banned, now);
    && g' == g.(speakers := g'.speakers, cameras := g'.cameras)
    && (forall x :: Due(g', x, now) == Due(g, x, now))
    && Enforced(g, room0, room, banned, fixed, now)
    && Passed(g, g'.speakers, g'.cameras, room0, banned, ids[..k], now, lease)
    && FixedSoFar(v, ids[..k], fixed, calls)
  }

  /** Of the violators among `passed` those `fixed` are set right, all of them unless the calls are used up. */
  ghost predicate FixedSoFar(v: set<Id>, passed: seq<Id>, fixed: set<Id>, calls: nat) {
    && fixed <= v && |fixed| == calls <= MAX_RECONCILE_CALLS
    && (forall id :: id in fixed ==> id in passed)
    && (forall id :: id in passed && id in v && id !in fixed ==> calls == MAX_RECONCILE_CALLS)
  }

  lemma FixedNext(v: set<Id>, passed: seq<Id>, id: Id, fixed: set<Id>, calls1: nat, calls: nat)
    requires FixedSoFar(v, passed, fixed, calls1) && id !in passed
    requires calls == if id in v && calls1 < MAX_RECONCILE_CALLS then calls1 + 1 else calls1
    ensures FixedSoFar(v, passed + [id], if calls > calls1 then fixed + {id} else fixed, calls)
  {
  }

  lemma PassedOneMore(g: Grounds, g1: Grounds, g2: Grounds, room0: map<Id, Participant>, room1: map<Id, Participant>, room: map<Id, Participant>,
                      banned: set<Id>, ids: seq<Id>, k: nat, fixed: set<Id>, calls1: nat, calls: nat, now: int, lease: int)
    requires k < |ids| && ids[k] !in ids[..k] && ids[k] in room0 && ids[k] in room1 && room1[ids[k]] == room0[ids[k]]
    requires PassedTo(g, g1, room0, room1, banned, ids, k, fixed, calls1, now, lease)
    requires g2 == g1.(speakers := g2.speakers, cameras := g2.cameras) && forall x :: Due(g2, x, now) == Due(g1, x, now)
    requires Stepped(g1, g2.speakers, g2.cameras, room1, banned, ids[k], now, lease)
    requires calls == if Violator(g1, room1, banned, ids[k], now) && calls1 < MAX_RECONCILE_CALLS then calls1 + 1 else calls1
    requires room == if calls == calls1 then room1 else if ids[k] in banned then room1 - {ids[k]}
                     else room1[ids[k] := Synced(room1[ids[k]], Due(g1, ids[k], now))]
    ensures PassedTo(g, g2, room0, room, banned, ids, k + 1, if calls > calls1 then fixed + {ids[k]} else fixed, calls, now, lease)
  {
    TakeSnoc(ids, k);
    FixedNext(Violators(g, room0, banned, now), ids[..k], ids[k], fixed, calls1, calls);
    EnforceOne(g, room0, room1, room, banned, fixed, ids[k], calls > calls1, now);
    PassOne(g, g1, g2.speakers, g2.cameras, room0, room1, banned, ids, k, now, lease);
  }

  /** Settling one identity's slots changes nobody's due, and leaves that one entitled to exactly what is due. */
  lemma SettlingKeepsDue(g: Grounds, g': Grounds, room: map<Id, Participant>, id: Id, now: int, lease: int)
    requires g' == g.(speakers := g'.speakers, cameras := g'.cameras)
    requires Rescored(g.speakers, g'.speakers, OneIf(id, Barred(g, id)), OneIf(id, Speaking(g, room, id, now)), now, lease)
    requires Rescored(g.cameras, g'.cameras, OneIf(id, Barred(g, id)), OneIf(id, Filming(g, room, id, now)), now, lease)
    ensures forall x :: Due(g', x, now) == Due(g, x, now)
    ensures Desired(g', id, now) == Due(g, id, now)
  {
    forall x
      ensures Due(g', x, now) == Due(g, x, now)
    {
      if x != id || !Barred(g, id) {
        assert HasMic(g', x, now) == HasMic(g, x, now) && HasCamera(g', x, now) == HasCamera(g, x, now);
      }
    }
  }

  /** The slots of a whole round: first those that go with step 1, then the pass. */
  lemma RoundPassed(g: Grounds, g1: Grounds, speakers: State, cameras: State, room: map<Id, Participant>, banned: set<Id>, ids: seq<Id>, now: int, lease: int)
    requires g1.settings == g.settings && g1.silenced == g.silenced
    requires forall x :: Holds(g1.speakers, now, x) <==> g.settings.voiceEnabled && Holds(g.speakers, now, x) && x in room
    requires forall x :: Holds(g1.cameras, now, x) <==> g.settings.videoEnabled && Holds(g.cameras, now, x) && x in room
    requires Service.SameEnds(g.speakers, g1.speakers) && Service.SameEnds(g.cameras, g1.cameras)
    requires (!g.settings.voiceEnabled ==> g1.speakers.score == map[]) && (!g.settings.videoEnabled ==> g1.cameras.score == map[])
    requires Passed(g1, speakers, cameras, room, banned, ids, now, lease)
    ensures RoundSlots(g, speakers, cameras, room, banned, ids, now, lease)
  {
    assert BarredOf(g1, banned, ids) == BarredOf(g, banned, ids);
    forall x | x in speakers.score
      ensures x in g.speakers.score
      ensures speakers.score[x] == if x in SpeakingOf(g, room, banned, ids, now) then now + lease else g.speakers.score[x]
    {
      assert x in g1.speakers.score;
    }
    forall x | x in cameras.score
      ensures x in g.cameras.score
      ensures cameras.score[x] == if x in FilmingOf(g, room, banned, ids, now) then now + lease else g.cameras.score[x]
    {
      assert x in g1.cameras.score;
    }
  }

  /** Exactly what a round does to the slots: those of absentees, of a switched-off kind and of blocked visitors go. */
  ghost predicate RoundSlots(g: Grounds, speakers: State, cameras: State, room: map<Id, Participant>, banned: set<Id>, ids: seq<Id>, now: int, lease: int) {
    && (forall x :: Holds(speakers, now, x) <==>
          Holds(g.speakers, now, x) && g.settings.voiceEnabled && x in room && x !in BarredOf(g, banned, ids))
    && (forall x :: Holds(cameras, now, x) <==>
          Holds(g.cameras, now, x) && g.settings.videoEnabled && x in room && x !in BarredOf(g, banned, ids))
    && (forall x :: x in speakers.score ==>
          x in g.speakers.score && speakers.score[x] == if x in SpeakingOf(g, room, banned, ids, now) then now + lease else g.speakers.score[x])
    && (forall x :: x in cameras.score ==>
          x in g.cameras.score && cameras.score[x] == if x in FilmingOf(g, room, banned, ids, now) then now + lease else g.cameras.score[x])
  }

  // ------------------------------------------------------------------
  // The service
  // ------------------------------------------------------------------

  class Service {
    const speakers: SlotSet
    const cameras: SlotSet
    const lease: int
    var settings: Settings
    var bans: map<Id, int>
    var agentMuted: map<Id, int>
    var vids: map<Id, string>
    var blockedVids: set<string>
    var online: set<Id>
    var room: map<Id, Participant>

    constructor (lease: int, now: int, settings: Settings)
      requires lease > 0 && 0 <= now
      ensures Valid(now) && this.settings == settings && this.lease == lease && room == map[] && online == {}
      ensures speakers.s == EMPTY && cameras.s == EMPTY && bans == map[] && agentMuted == map[] && vids == map[] && blockedVids == {}
    {
      speakers := new SlotSet(lease, now);
      cameras := new SlotSet(lease, now);
      this.lease := lease;
      this.settings := settings;
      bans, agentMuted, vids, blockedVids, online, room := map[], map[], map[], {}, {}, map[];
    }

    ghost predicate Valid(now: int)
      reads speakers, cameras
    {
      && speakers != cameras && speakers.Valid() && cameras.Valid()
      && speakers.clock <= now && cameras.clock <= now && speakers.lease == lease && cameras.lease == lease
    }

    predicate IsBanned(id: Id, now: int)
      reads this`bans
    {
      id in bans && bans[id] > now
    }

    /** An agent's mute ends by itself, like a ban. */
    predicate IsMuted(id: Id, now: int)
      reads this`agentMuted
    {
      id in agentMuted && agentMuted[id] > now
    }

    ghost function MutedIds(now: int): set<Id>
      reads this`agentMuted
    {
      set id | id in agentMuted && IsMuted(id, now)
    }

    /** BlockedVisitorIDs over the recorded visitor ids; an identity without a record is never blocked. */
    predicate IsSilenced(id: Id)
      reads this`vids, this`blockedVids
    {
      id in vids && vids[id] != "" && vids[id] in blockedVids
    }

    /** Blocked is who has a visitor id on record that is blocked. */
    lemma SilencedExactly(id: Id)
      ensures id in SilencedIds() <==> exists vid :: id in vids && vids[id] == vid && vid != "" && vid in blockedVids
    {
    }

    ghost function BannedIds(now: int): set<Id>
      reads this`bans
    {
      set id | id in bans && IsBanned(id, now)
    }

    ghost function SilencedIds(): set<Id>
      reads this`vids, this`blockedVids
    {
      set id | id in vids && IsSilenced(id)
    }

    ghost function Now(now: int): Grounds
      reads this`settings, this`agentMuted, this`vids, this`blockedVids, speakers, cameras
    {
      Grounds(settings, speakers.s, cameras.s, MutedIds(now), SilencedIds())
    }

    /** desiredSources. */
    method DesiredSources(id: Id, now: int) returns (sources: seq<Source>)
      requires Valid(now)
      ensures sources == Desired(Now(now), id, now)
    {
      sources := [];
      if !settings.voiceEnabled {
      } else if IsAgent(id) {
        if !IsMuted(id, now) {
          sources := sources + [Microphone];
        }
      } else {
        var held := speakers.HoldsSlot(id, now);
        if held {
          sources := sources + [Microphone];
        }
      }
      if settings.videoEnabled {
        var held := cameras.HoldsSlot(id, now);
        if held {
          sources := sources + [Camera];
        }
      }
    }

    /** syncPermission, when the calls succeed: LiveKit replaces the permission, residual tracks are muted. */
    method SyncPermission(id: Id, now: int)
      requires Valid(now) && id in room
      modifies this`room
      ensures room == old(room)[id := Synced(old(room)[id], Desired(Now(now), id, now))]
    {
      var sources := DesiredSources(id, now);
      var p := room[id].(perm := Perm(Request(PermissionFor(sources))));
      room := room[id := p.(tracks := MuteResidual(p.tracks, sources))];
    }

    // ----------------------------------------------------------------
    // Turning a microphone or a camera on and off
    // ----------------------------------------------------------------

    function Slot(kind: SlotKind): SlotSet {
      if kind.SpeakerSlot? then speakers else cameras
    }

    function MaxOf(kind: SlotKind): int
      reads this`settings
    {
      if kind.SpeakerSlot? then settings.maxSpeakers else settings.maxCameras
    }

    /**
      setMedia under the identity's lock. `blocked` is what the database says of the visitor, `answers` whether
      LiveKit answers. A success grants exactly what is due, the asked-for source included; everything else leaves
      the room as it was and, the roll-back of a new grant included, everybody's holding too.
     */
    method SetMedia(id: Id, kind: SlotKind, on: bool, blocked: bool, answers: bool, now: int) returns (r: MediaResult)
      requires Valid(now) && (IsVisitor(id) || (IsAgent(id) && kind.CameraSlot?))
      modifies this`room, Slot(kind)
      ensures Valid(now)
      ensures forall x :: x != id ==> (Holds(Slot(kind).s, now, x) <==> Holds(old(Slot(kind).s), now, x))
      ensures |old(Slot(kind).s.score)| <= MaxOf(kind) ==> |Slot(kind).s.score| <= MaxOf(kind)
      ensures r.MediaSet? <==> && settings.enabled
                               && (on ==> && (if kind.CameraSlot? then settings.videoEnabled else settings.voiceEnabled)
                                          && !IsBanned(id, now) && !(IsVisitor(id) && blocked)
                                          && id in old(room) && answers && MaxOf(kind) > 0 && Holds(Slot(kind).s, now, id))
      ensures r.HallClosed? <==> !settings.enabled
      ensures r.VideoDisabled? <==> settings.enabled && on && kind.CameraSlot? && !settings.videoEnabled
      ensures r.VoiceDisabled? <==> settings.enabled && on && kind.SpeakerSlot? && !settings.voiceEnabled
      ensures r.MediaForbidden? <==> && settings.enabled && on && (if kind.CameraSlot? then settings.videoEnabled else settings.voiceEnabled)
                                     && (IsBanned(id, now) || (IsVisitor(id) && blocked))
      ensures r.GrantFailed? ==> id !in old(room) || !answers
      ensures r.MediaSet? ==> r.on == on && (Holds(Slot(kind).s, now, id) <==> on) && r.used == |Slot(kind).s.score|
      ensures r.MediaSet? && on ==>
                && room == old(room)[id := Synced(old(room)[id], Desired(Now(now), id, now))]
                && SourceOf(kind) in Desired(Now(now), id, now)
      ensures r.MediaSet? && !on ==>
                && room == (if id in old(room) && answers then old(room)[id := Synced(old(room)[id], Desired(Now(now), id, now))] else old(room))
                && SourceOf(kind) !in Desired(Now(now), id, now)
      ensures !r.MediaSet? ==> room == old(room) && (Holds(Slot(kind).s, now, id) <==> Holds(old(Slot(kind).s), now, id))
      ensures r.SlotsFull? && MaxOf(kind) > 0 ==>
                !Holds(old(Slot(kind).s), now, id) && |Live(old(Slot(kind).s.score), now)| >= MaxOf(kind)
    {
      if !settings.enabled {
        return HallClosed;
      }
      if kind.CameraSlot? {
        if on && !settings.videoEnabled {
          return VideoDisabled;
        }
      } else if on && !settings.voiceEnabled {
        return VoiceDisabled;
      }
      if on && (IsBanned(id, now) || (IsVisitor(id) && blocked)) {
        return MediaForbidden;
      }
      if on {
        r := TurnOn(id, kind, answers, now);
      } else {
        r := TurnOff(id, kind, answers, now);
        SubsetSize(Slot(kind).s.score.Keys, old(Slot(kind).s.score).Keys);
      }
    }

    method TurnOn(id: Id, kind: SlotKind, answers: bool, now: int) returns (r: MediaResult)
      requires Valid(now) && (IsVisitor(id) || (IsAgent(id) && kind.CameraSlot?))
      requires if kind.CameraSlot? then settings.videoEnabled else settings.voiceEnabled
      modifies this`room, Slot(kind)
      ensures Valid(now)
      ensures forall x :: x != id ==> (Holds(Slot(kind).s, now, x) <==> Holds(old(Slot(kind).s), now, x))
      ensures |old(Slot(kind).s.score)| <= MaxOf(kind) ==> |Slot(kind).s.score| <= MaxOf(kind)
      ensures r.MediaSet? || r.SlotsFull? || r.GrantFailed?
      ensures r.GrantFailed? ==> id !in old(room) || !answers
      ensures r.MediaSet? <==> id in old(room) && answers && MaxOf(kind) > 0 && Holds(Slot(kind).s, now, id)
      ensures r.MediaSet? ==>
                && r.on && r.used == |Slot(kind).s.score|
                && room == old(room)[id := Synced(old(room)[id], Desired(Now(now), id, now))]
                && SourceOf(kind) in Desired(Now(now), id, now)
      ensures !r.MediaSet? ==> room == old(room) && (Holds(Slot(kind).s, now, id) <==> Holds(old(Slot(kind).s), now, id))
      ensures r.SlotsFull? && MaxOf(kind) > 0 ==>
                !Holds(old(Slot(kind).s), now, id) && |Live(old(Slot(kind).s.score), now)| >= MaxOf(kind)
    {
      var slots := Slot(kind);
      AcquireHolds(slots.s, slots.clock, slots.lease, id, now, MaxOf(kind));
      StepKeeps(slots.s, slots.clock, Acquire(id), now, slots.lease, MaxOf(kind));
      var ok, newly, used := slots.AcquireSlot(id, now, MaxOf(kind));
      if !ok {
        return SlotsFull(used);
      }
      if id !in room || !answers {
        if newly {
          ghost var granted := slots.s;
          ReleaseHolds(granted, slots.clock, slots.lease, id, now, 0);
          StepKeeps(granted, slots.clock, Release(id), now, slots.lease, 0);
          SubsetSize(Apply(granted, Release(id), now, slots.lease, 0).score.Keys, granted.score.Keys);
          var released := slots.ReleaseSlot(id, now);
        }
        return GrantFailed;
      }
      SyncPermission(id, now);
      return MediaSet(true, used);
    }

    method TurnOff(id: Id, kind: SlotKind, answers: bool, now: int) returns (r: MediaResult)
      requires Valid(now) && (IsVisitor(id) || (IsAgent(id) && kind.CameraSlot?))
      modifies this`room, Slot(kind)
      ensures Valid(now)
      ensures forall x :: Holds(Slot(kind).s, now, x) <==> Holds(old(Slot(kind).s), now, x) && x != id
      ensures Slot(kind).s.score.Keys <= old(Slot(kind).s.score).Keys
      ensures r == MediaSet(false, |Slot(kind).s.score|)
      ensures room == (if id in old(room) && answers then old(room)[id := Synced(old(room)[id], Desired(Now(now), id, now))] else old(room))
      ensures SourceOf(kind) !in Desired(Now(now), id, now)
    {
      var slots := Slot(kind);
      var released := ReleaseHeld(slots, id, now);
      if id in room && answers {
        SyncPermission(id, now);
      }
      var used := CountSlots(slots, now);
      return MediaSet(false, used);
    }

    /** slotCount. */
    static method CountSlots(slots: SlotSet, now: int) returns (used: nat)
      requires slots.Valid() && slots.clock <= now
      modifies slots
      ensures slots.Valid() && slots.clock == now && slots.s.score.Keys <= old(slots.s.score).Keys
      ensures forall x :: Holds(slots.s, now, x) <==> Holds(old(slots.s), now, x)
      ensures used == |slots.s.score|
    {
      KeyExpiryTakesNoLease(slots.s, slots.clock, slots.lease, now);
      var members := slots.SlotMembers(now);
      used := |members|;
    }

    // ----------------------------------------------------------------
    // Reconciling
    // ----------------------------------------------------------------

    /** Frees the slots of those who left: nobody in the room loses or gains a slot. */
    method ReleaseAbsent(slots: SlotSet, now: int) returns (released: nat)
      requires slots.Valid() && slots.clock <= now
      modifies slots
      ensures slots.Valid() && slots.clock == now
      ensures slots.s.score.Keys <= room.Keys && slots.s.score.Keys <= old(slots.s.score).Keys
      ensures forall id :: Holds(slots.s, now, id) <==> Holds(old(slots.s), now, id) && id in room
      ensures SameEnds(old(slots.s), slots.s)
    {
      released := 0;
      KeyExpiryTakesNoLease(slots.s, slots.clock, slots.lease, now);
      var members := slots.SlotMembers(now);
      var rest := members;
      while rest != {}
        invariant slots.Valid() && slots.clock == now && rest <= members
        invariant slots.s.score.Keys <= room.Keys + rest && slots.s.score.Keys <= old(slots.s.score).Keys
        invariant forall id :: Holds(slots.s, now, id) <==> Holds(old(slots.s), now, id) && (id in room || id in rest)
        invariant SameEnds(old(slots.s), slots.s)
        decreases rest
      {
        var m := Any(rest);
        if m !in room {
          ReleaseRescores(slots.s, slots.clock, slots.lease, m, now, 0);
          var ok := slots.ReleaseSlot(m, now);
          if ok {
            released := released + 1;
          }
        }
        rest := rest - {m};
      }
    }

    /** Leases that are left end when they did. */
    static ghost predicate SameEnds(s: State, s': State) {
      forall x :: x in s'.score ==> x in s.score && s'.score[x] == s.score[x]
    }

    /** Step 1: slots of absentees, and all slots of a switched-off kind. Nobody in the room is due more or less. */
    method ReleasePhase(now: int) returns (released: nat)
      requires Valid(now)
      modifies speakers, cameras
      ensures Valid(now) && SameDue(old(Now(now)), Now(now), room.Keys, now)
      ensures speakers.s.score.Keys <= room.Keys && SameEnds(old(speakers.s), speakers.s)
      ensures cameras.s.score.Keys <= room.Keys && SameEnds(old(cameras.s), cameras.s)
      ensures forall id :: Holds(speakers.s, now, id) <==> settings.voiceEnabled && Holds(old(speakers.s), now, id) && id in room
      ensures forall id :: Holds(cameras.s, now, id) <==> settings.videoEnabled && Holds(old(cameras.s), now, id) && id in room
      ensures (!settings.voiceEnabled ==> speakers.s.score == map[]) && (!settings.videoEnabled ==> cameras.s.score == map[])
    {
      ghost var g := Now(now);
      var spk := ReleaseAbsent(speakers, now);
      var cam := ReleaseAbsent(cameras, now);
      var offCam := ClearIfOff(cameras, settings.videoEnabled, now);
      var offSpk := ClearIfOff(speakers, settings.voiceEnabled, now);
      released := spk + cam + offCam + offSpk;
      SameHoldsSameDue(g, Now(now), room.Keys, now);
    }

    /** All slots of a switched-off kind go. */
    static method ClearIfOff(slots: SlotSet, on: bool, now: int) returns (released: nat)
      requires slots.Valid() && slots.clock == now
      modifies slots
      ensures slots.Valid() && slots.clock == now && (on ==> slots.s == old(slots.s))
      ensures slots.s.score.Keys <= old(slots.s.score).Keys && (!on ==> slots.s.score == map[])
    {
      released := 0;
      if !on {
        var members := slots.SlotMembers(now);
        released := |members|;
        slots.ClearSlots(now);
      }
    }

    /** A blocked visitor's slots are released; a slot being published on is renewed. */
    method SettleSlots(id: Id, now: int, stats0: Stats) returns (stats: Stats)
      requires Valid(now) && id in room && ValidIdentity(id)
      modifies speakers, cameras
      ensures Valid(now)
      ensures Rescored(old(speakers.s), speakers.s, OneIf(id, Barred(old(Now(now)), id)), OneIf(id, Speaking(old(Now(now)), room, id, now)), now, lease)
      ensures Rescored(old(cameras.s), cameras.s, OneIf(id, Barred(old(Now(now)), id)), OneIf(id, Filming(old(Now(now)), room, id, now)), now, lease)
      ensures stats.revoked == stats0.revoked && stats.removed == stats0.removed
      ensures stats.renewed == stats0.renewed + (if Speaking(old(Now(now)), room, id, now) then 1 else 0)
                                              + (if Filming(old(Now(now)), room, id, now) then 1 else 0)
      ensures !Barred(old(Now(now)), id) ==> stats.released == stats0.released
    {
      stats := stats0;
      if IsVisitor(id) && IsSilenced(id) {
        var spk := ReleaseHeld(speakers, id, now);
        var cam := ReleaseHeld(cameras, id, now);
        stats := stats.(released := stats.released + (if spk then 1 else 0) + (if cam then 1 else 0));
      }
      if Publishing(room[id], Microphone) && IsVisitor(id) {
        var held := RenewHeld(speakers, id, now);
        stats := if held then stats.(renewed := stats.renewed + 1) else stats;
      }
      if settings.videoEnabled && Publishing(room[id], Camera) {
        var held := RenewHeld(cameras, id, now);
        stats := if held then stats.(renewed := stats.renewed + 1) else stats;
      }
    }

    static method ReleaseHeld(slots: SlotSet, id: Id, now: int) returns (ok: bool)
      requires slots.Valid() && slots.clock <= now
      modifies slots
      ensures slots.Valid() && slots.clock == now && slots.s.score.Keys <= old(slots.s.score).Keys
      ensures forall x :: Holds(slots.s, now, x) <==> Holds(old(slots.s), now, x) && x != id
      ensures Rescored(old(slots.s), slots.s, {id}, {}, now, slots.lease)
    {
      ReleaseRescores(slots.s, slots.clock, slots.lease, id, now, 0);
      ok := slots.ReleaseSlot(id, now);
    }

    /** holdsSlot, then renewSlot. */
    static method RenewHeld(slots: SlotSet, id: Id, now: int) returns (held: bool)
      requires slots.Valid() && slots.clock <= now
      modifies slots
      ensures slots.Valid() && slots.clock <= now && slots.s.score.Keys <= old(slots.s.score).Keys
      ensures held == Holds(old(slots.s), now, id)
      ensures Rescored(old(slots.s), slots.s, {}, if held then {id} else {}, now, slots.lease)
    {
      held := slots.HoldsSlot(id, now);
      if held {
        RenewRescores(slots.s, slots.clock, slots.lease, id, now, 0);
        slots.RenewSlot(id, now);
      }
    }

    /** Step 2 for one participant; `calls` counts the modifying calls of the round. */
    method ReconcileOne(id: Id, now: int, calls0: nat, stats0: Stats) returns (calls: nat, stats: Stats)
      requires Valid(now) && id in room
      modifies this`room, speakers, cameras
      ensures Valid(now) && speakers.s.score.Keys <= old(speakers.s.score).Keys && cameras.s.score.Keys <= old(cameras.s.score).Keys
      ensures forall x :: Due(Now(now), x, now) == Due(old(Now(now)), x, now)
      ensures
        var due := Due(old(Now(now)), id, now);
        var act := Violator(old(Now(now)), old(room), old(BannedIds(now)), id, now) && calls0 < MAX_RECONCILE_CALLS;
        && calls == (if act then calls0 + 1 else calls0)
        && room == (if !act then old(room)
                    else if old(IsBanned(id, now)) then old(room) - {id}
                    else old(room)[id := Synced(old(room)[id], due)])
        && Stepped(old(Now(now)), speakers.s, cameras.s, old(room), old(BannedIds(now)), id, now, lease)
        && stats.revoked + stats.removed - stats0.revoked - stats0.removed == calls - calls0
    {
      calls, stats := calls0, stats0;
      if !ValidIdentity(id) {
        return;
      }
      if IsBanned(id, now) {
        if calls < MAX_RECONCILE_CALLS {
          calls := calls + 1;
          room := room - {id};
          stats := stats.(removed := stats.removed + 1);
        }
        return;
      }
      calls, stats := SettleOne(id, now, calls, stats);
    }

    /** ... who is not banned. */
    method SettleOne(id: Id, now: int, calls0: nat, stats0: Stats) returns (calls: nat, stats: Stats)
      requires Valid(now) && id in room && ValidIdentity(id)
      modifies this`room, speakers, cameras
      ensures Valid(now) && speakers.s.score.Keys <= old(speakers.s.score).Keys && cameras.s.score.Keys <= old(cameras.s.score).Keys
      ensures forall x :: Due(Now(now), x, now) == Due(old(Now(now)), x, now)
      ensures
        var due := Due(old(Now(now)), id, now);
        var act := Excess(old(room)[id], due) && calls0 < MAX_RECONCILE_CALLS;
        && calls == (if act then calls0 + 1 else calls0)
        && room == (if act then old(room)[id := Synced(old(room)[id], due)] else old(room))
        && Rescored(old(speakers.s), speakers.s, OneIf(id, Barred(old(Now(now)), id)), OneIf(id, Speaking(old(Now(now)), old(room), id, now)), now, lease)
        && Rescored(old(cameras.s), cameras.s, OneIf(id, Barred(old(Now(now)), id)), OneIf(id, Filming(old(Now(now)), old(room), id, now)), now, lease)
        && stats.revoked + stats.removed - stats0.revoked - stats0.removed == calls - calls0
    {
      calls := calls0;
      ghost var g := Now(now);
      stats := SettleSlots(id, now, stats0);
      SettlingKeepsDue(g, Now(now), room, id, now, lease);
      var desired := DesiredSources(id, now);
      if Excess(room[id], desired) && calls < MAX_RECONCILE_CALLS {
        calls := calls + 1;
        SyncPermission(id, now);
        stats := stats.(revoked := stats.revoked + 1);
      }
    }

    ghost function Offenders(now: int): set<Id>
      reads this`settings, this`agentMuted, this`vids, this`blockedVids, this`bans, this`room, speakers, cameras
    {
      Violators(Now(now), room, BannedIds(now), now)
    }

    /**
      One round over the listed participants, in any order, when every call succeeds and the hall is enabled: of
      the violators as many as the budget allows are set right, the first ones listed; nobody else is touched and
      nobody's due changes.
     */
    method Enforce(ids: seq<Id>, now: int, stats0: Stats) returns (stats: Stats, ghost fixed: set<Id>)
      requires Valid(now) && Listed(ids)
      modifies this`room, speakers, cameras
      ensures Valid(now) && speakers.s.score.Keys <= old(speakers.s.score).Keys && cameras.s.score.Keys <= old(cameras.s.score).Keys
      ensures SameDue(old(Now(now)), Now(now), old(room).Keys, now)
      ensures Passed(old(Now(now)), speakers.s, cameras.s, old(room), old(BannedIds(now)), ids, now, lease)
      ensures fixed <= old(Offenders(now)) && |fixed| == Min(|old(Offenders(now))|, MAX_RECONCILE_CALLS)
      ensures Enforced(old(Now(now)), old(room), room, old(BannedIds(now)), fixed, now)
      ensures stats.revoked + stats.removed - stats0.revoked - stats0.removed == |fixed|
    {
      stats, fixed := stats0, {};
      var calls: nat := 0;
      ghost var g, room0, banned := Now(now), room, BannedIds(now);
      ghost var v := Violators(g, room0, banned, now);
      for k := 0 to |ids|
        invariant Valid(now) && speakers.s.score.Keys <= old(speakers.s.score).Keys && cameras.s.score.Keys <= old(cameras.s.score).Keys
        invariant BannedIds(now) == banned && PassedTo(g, Now(now), room0, room, banned, ids, k, fixed, calls, now, lease)
        invariant stats.revoked + stats.removed - stats0.revoked - stats0.removed == calls
      {
        calls, stats, fixed := EnforceNext(ids, k, now, calls, stats, g, room0, banned, fixed);
      }
      AllOrBudget(ids, v, fixed, calls);
      assert ids[..|ids|] == ids;
    }

    /** The next participant of the pass. */
    method EnforceNext(ids: seq<Id>, k: nat, now: int, calls0: nat, stats0: Stats, ghost g: Grounds, ghost room0: map<Id, Participant>,
                       ghost banned: set<Id>, ghost fixed0: set<Id>) returns (calls: nat, stats: Stats, ghost fixed: set<Id>)
      requires Valid(now) && k < |ids| && ids[k] in room0 && ids[k] !in ids[..k]
      requires BannedIds(now) == banned && PassedTo(g, Now(now), room0, room, banned, ids, k, fixed0, calls0, now, lease)
      modifies this`room, speakers, cameras
      ensures Valid(now) && speakers.s.score.Keys <= old(speakers.s.score).Keys && cameras.s.score.Keys <= old(cameras.s.score).Keys
      ensures BannedIds(now) == banned && PassedTo(g, Now(now), room0, room, banned, ids, k + 1, fixed, calls, now, lease)
      ensures stats.revoked + stats.removed - stats0.revoked - stats0.removed == calls - calls0
    {
      var id := ids[k];
      ghost var room1, g1 := room, Now(now);
      assert id in room1 && room1[id] == room0[id];
      calls, stats := ReconcileOne(id, now, calls0, stats0);
      fixed := if calls > calls0 then fixed0 + {id} else fixed0;
      PassedOneMore(g, g1, Now(now), room0, room1, room, banned, ids, k, fixed0, calls0, calls, now, lease);
    }

    /** The participant list: every identity in the room but the empty one, once. */
    ghost predicate Listed(ids: seq<Id>)
      reads this`room
    {
      && (forall i, j :: 0 <= i < j < |ids| ==> ids[i] != ids[j])
      && (forall id :: id in ids <==> id in room && id != "")
    }

    lemma AllOrBudget(ids: seq<Id>, v: set<Id>, fixed: set<Id>, calls: nat)
      requires fixed <= v && |fixed| == calls <= MAX_RECONCILE_CALLS
      requires forall id :: id in v ==> id in ids
      requires forall id :: id in ids && id in v && id !in fixed ==> calls == MAX_RECONCILE_CALLS
      ensures |fixed| == Min(|v|, MAX_RECONCILE_CALLS)
    {
      SubsetSize(fixed, v);
      if calls < MAX_RECONCILE_CALLS {
        assert fixed == v;
      }
    }

    /** LiveKit's participant list, in some order; entries without an identity are skipped. */
    method ListParticipants() returns (ids: seq<Id>)
      ensures Listed(ids)
    {
      ids := [];
      var rest := room.Keys;
      while rest != {}
        invariant rest <= room.Keys
        invariant forall i, j :: 0 <= i < j < |ids| ==> ids[i] != ids[j]
        invariant forall id :: id in ids <==> id in room && id !in rest && id != ""
        decreases rest
      {
        var id := Any(rest);
        rest := rest - {id};
        if id != "" {
          ids := ids + [id];
        }
      }
    }

    /**
      ReconcileOnce, every call succeeding. Enabled hall: exactly min(V, 40) of the V violators are set right.
      Disabled hall: the first 40 listed are removed and all slots cleared.
     */
    method ReconcileOnce(ids: seq<Id>, now: int) returns (stats: Stats)
      requires Valid(now) && Listed(ids)
      modifies this`room, this`online, speakers, cameras
      ensures Valid(now) && online == set id | id in ids
      ensures speakers.s.score.Keys <= old(speakers.s.score).Keys && cameras.s.score.Keys <= old(cameras.s.score).Keys
      ensures settings.enabled ==>
                && Offenders(now) <= old(Offenders(now))
                && |Offenders(now)| == |old(Offenders(now))| - Min(|old(Offenders(now))|, MAX_RECONCILE_CALLS)
                && stats.revoked + stats.removed == Min(|old(Offenders(now))|, MAX_RECONCILE_CALLS)
      ensures settings.enabled ==>
                && OnlyOffendersTouched(old(Now(now)), old(room), room, old(Offenders(now)), now)
                && RoundSlots(old(Now(now)), speakers.s, cameras.s, old(room), old(BannedIds(now)), ids, now, lease)
      ensures !settings.enabled ==>
                && room == old(room) - (set id | id in ids[..Min(|ids|, MAX_RECONCILE_CALLS)])
                && speakers.s.score == map[] && cameras.s.score == map[]
                && stats == Stats(0, 0, 0, Min(|ids|, 40))
    {
      online := set id | id in ids;
      stats := Stats(0, 0, 0, 0);
      if !settings.enabled {
        var removed := RemoveFirst(ids);
        speakers.ClearSlots(now);
        cameras.ClearSlots(now);
        return stats.(removed := removed);
      }
      stats := EnabledRound(ids, now);
    }

    method EnabledRound(ids: seq<Id>, now: int) returns (stats: Stats)
      requires Valid(now) && Listed(ids)
      modifies this`room, speakers, cameras
      ensures Valid(now)
      ensures speakers.s.score.Keys <= old(speakers.s.score).Keys && cameras.s.score.Keys <= old(cameras.s.score).Keys
      ensures Offenders(now) <= old(Offenders(now))
      ensures |Offenders(now)| == |old(Offenders(now))| - Min(|old(Offenders(now))|, MAX_RECONCILE_CALLS)
      ensures stats.revoked + stats.removed == Min(|old(Offenders(now))|, MAX_RECONCILE_CALLS)
      ensures OnlyOffendersTouched(old(Now(now)), old(room), room, old(Offenders(now)), now)
      ensures RoundSlots(old(Now(now)), speakers.s, cameras.s, old(room), old(BannedIds(now)), ids, now, lease)
    {
      ghost var g0, room0, banned := Now(now), room, BannedIds(now);
      var released := ReleasePhase(now);
      ghost var g1 := Now(now);
      SameDueSameViolators(g0, g1, room0, banned, now);
      ghost var v := Violators(g0, room0, banned, now);
      ghost var fixed;
      stats, fixed := Enforce(ids, now, Stats(released, 0, 0, 0));
      EnforcedLeaves(g1, room0, room, banned, fixed, now);
      SameDueSameViolators(g1, Now(now), room, banned, now);
      assert Offenders(now) == v - fixed;
      EnforcedTouches(g0, g1, room0, room, banned, v, fixed, now);
      RoundPassed(g0, g1, speakers.s, cameras.s, room0, banned, ids, now, lease);
      FixedCount(v, fixed);
    }

    method RemoveFirst(ids: seq<Id>) returns (removed: nat)
      requires Listed(ids)
      modifies this`room
      ensures removed == Min(|ids|, MAX_RECONCILE_CALLS)
      ensures room == old(room) - (set id | id in ids[..removed])
    {
      removed := 0;
      for k := 0 to |ids|
        invariant removed == Min(k, MAX_RECONCILE_CALLS)
        invariant room == old(room) - (set id | id in ids[..removed])
      {
        if removed >= MAX_RECONCILE_CALLS {
          break;
        }
        TakeSnoc(ids, k);
        room := room - {ids[k]};
        removed := removed + 1;
      }
    }

    lemma FixedCount(v: set<Id>, fixed: set<Id>)
      requires fixed <= v
      ensures |v - fixed| == |v| - |fixed|
    {
    }

    /** Rounds at a fixed clock and fixed settings: each clears up to 40 violators, until there are none. */
    method ReconcileRounds(n: nat, now: int)
      requires Valid(now) && settings.enabled
      modifies this`room, this`online, speakers, cameras
      ensures Valid(now) && Offenders(now) <= old(Offenders(now))
      ensures |Offenders(now)| == if |old(Offenders(now))| <= 40 * n then 0
                                  else |old(Offenders(now))| - 40 * n
      ensures speakers.s.score.Keys <= old(speakers.s.score).Keys && cameras.s.score.Keys <= old(cameras.s.score).Keys
      ensures |old(Offenders(now))| <= 40 * n
              && |old(speakers.s.score)| <= settings.maxSpeakers && |old(cameras.s.score)| <= settings.maxCameras ==>
                && (forall id :: id in room && ValidIdentity(id) ==> !IsBanned(id, now))
                && |MicVisitors(room)| <= settings.maxSpeakers && |CameraHolders(room)| <= settings.maxCameras
    {
      for k := 0 to n
        invariant Valid(now) && Offenders(now) <= old(Offenders(now))
        invariant |Offenders(now)| == if |old(Offenders(now))| <= MAX_RECONCILE_CALLS * k then 0
                                      else |old(Offenders(now))| - MAX_RECONCILE_CALLS * k
        invariant speakers.s.score.Keys <= old(speakers.s.score).Keys && cameras.s.score.Keys <= old(cameras.s.score).Keys
      {
        NextRound(now);
      }
      SubsetSize(speakers.s.score.Keys, old(speakers.s.score).Keys);
      SubsetSize(cameras.s.score.Keys, old(cameras.s.score).Keys);
      if Offenders(now) == {} {
        Settled(now);
      }
    }

    method NextRound(now: int)
      requires Valid(now) && settings.enabled
      modifies this`room, this`online, speakers, cameras
      ensures Valid(now) && Offenders(now) <= old(Offenders(now))
      ensures |Offenders(now)| == |old(Offenders(now))| - Min(|old(Offenders(now))|, 40)
      ensures speakers.s.score.Keys <= old(speakers.s.score).Keys && cameras.s.score.Keys <= old(cameras.s.score).Keys
    {
      var ids := ListParticipants();
      var stats := ReconcileOnce(ids, now);
    }

    /** What the rounds are for. */
    lemma Settled(now: int)
      requires Offenders(now) == {}
      ensures forall id :: id in room && ValidIdentity(id) ==> !IsBanned(id, now)
      ensures |speakers.s.score| <= settings.maxSpeakers && |cameras.s.score| <= settings.maxCameras ==>
                |MicVisitors(room)| <= settings.maxSpeakers && |CameraHolders(room)| <= settings.maxCameras
    {
      forall id | id in room && ValidIdentity(id)
        ensures !IsBanned(id, now)
      {
        NoViolatorsWithinDue(Now(now), room, BannedIds(now), now, id, Microphone);
      }
      if |speakers.s.score| <= settings.maxSpeakers && |cameras.s.score| <= settings.maxCameras {
        NoViolatorsWithinLimits(Now(now), room, BannedIds(now), now);
      }
    }
  }

  function Min(a: int, b: int): int {
    if a < b then a else b
  }

  // ------------------------------------------------------------------
  // What no violators means
  // ------------------------------------------------------------------

  ghost function MicVisitors(room: map<Id, Participant>): set<Id> {
    set id | id in room && IsVisitor(id) && CanPublishSource(room[id].perm, Microphone)
  }

  ghost function CameraHolders(room: map<Id, Participant>): set<Id> {
    set id | id in room && ValidIdentity(id) && CanPublishSource(room[id].perm, Camera)
  }

  /** Without violators no banned identity is in the room and nobody holds a right beyond what is due. */
  lemma NoViolatorsWithinDue(g: Grounds, room: map<Id, Participant>, banned: set<Id>, now: int, id: Id, src: Source)
    requires Violators(g, room, banned, now) == {} && id in room && ValidIdentity(id) && src != UnknownSource
    ensures id !in banned
    ensures CanPublishSource(room[id].perm, src) ==> src in Due(g, id, now)
    ensures room[id].perm.Perm? ==> !room[id].perm.p.canPublishData && !room[id].perm.p.canUpdateMetadata
  {
    assert id !in Violators(g, room, banned, now);
  }

  /** ... at most MaxSpeakers visitors may publish a microphone, at most MaxCameras participants a camera. */
  lemma NoViolatorsWithinLimits(g: Grounds, room: map<Id, Participant>, banned: set<Id>, now: int)
    requires Violators(g, room, banned, now) == {}
    requires |g.speakers.score| <= g.settings.maxSpeakers && |g.cameras.score| <= g.settings.maxCameras
    ensures |MicVisitors(room)| <= g.settings.maxSpeakers
    ensures |CameraHolders(room)| <= g.settings.maxCameras
  {
    forall id | id in MicVisitors(room)
      ensures id in g.speakers.score
    {
      NoViolatorsWithinDue(g, room, banned, now, id, Microphone);
    }
    forall id | id in CameraHolders(room)
      ensures id in g.cameras.score
    {
      NoViolatorsWithinDue(g, room, banned, now, id, Camera);
    }
    SubsetSize(MicVisitors(room), g.speakers.score.Keys);
    SubsetSize(CameraHolders(room), g.cameras.score.Keys);
  }
}
