/**
  What moderators, LiveKit's webhooks and settings changes do to slots and permissions
  (backend/internal/hall/moderation.go, webhook.go and reconcile.go). These steps do not take the identity lock:
  each is one step between reconcile rounds. `answers` says whether LiveKit answers.
 */
module HallSteps {
  import opened Permissions
  import opened Slots
  import opened Hall
  import opened Collections

  /** A step aimed at one identity leaves everybody else's rights and dues as they were. */
  ghost predicate OnlyFor(g: Grounds, g': Grounds, room: map<Id, Participant>, room': map<Id, Participant>, id: Id, now: int) {
    && (forall x :: x != id ==> Desired(g', x, now) == Desired(g, x, now))
    && room'.Keys <= room.Keys
    && (forall x :: x in room && x != id ==> x in room' && room'[x] == room[x])
  }

  /** ... so it makes nobody else a violator, and cures nobody else either. */
  lemma OthersStayAsTheyWere(g: Grounds, g': Grounds, room: map<Id, Participant>, room': map<Id, Participant>, banned: set<Id>,
                             banned': set<Id>, id: Id, now: int)
    requires OnlyFor(g, g', room, room', id, now) && g.silenced == g'.silenced && banned' - {id} == banned - {id}
    ensures Violators(g', room', banned', now) - {id} == Violators(g, room, banned, now) - {id}
  {
    forall x | x != id
      ensures x in Violators(g', room', banned', now) <==> x in Violators(g, room, banned, now)
    {
      assert Due(g', x, now) == Due(g, x, now);
      assert x in banned' <==> x in banned' - {id};
      assert x in banned <==> x in banned - {id};
    }
  }

  /**
    When a synchronised participant still offends: exactly if banned, or if a blocked visitor who keeps a slot that
    entitles to something. Permissions follow the slots, not the block.
   */
  lemma SyncedOffendsExactly(g: Grounds, room: map<Id, Participant>, p: Participant, banned: set<Id>, id: Id, now: int)
    requires id in room && ValidIdentity(id) && room[id] == Synced(p, Desired(g, id, now))
    ensures id in Violators(g, room, banned, now) <==> id in banned || (IsVisitor(id) && id in g.silenced && Desired(g, id, now) != [])
  {
    SyncedHasNoExcess(p, Desired(g, id, now));
    if Desired(g, id, now) != [] {
      assert Desired(g, id, now)[0] in Desired(g, id, now);
    }
  }

  /** ... so every blocked visitor who holds a camera slot when synchronised is a violator for the next round. */
  lemma BlockedHolderOffends(g: Grounds, room: map<Id, Participant>, p: Participant, banned: set<Id>, id: Id, now: int)
    requires id in room && IsVisitor(id) && room[id] == Synced(p, Desired(g, id, now))
    requires id in g.silenced && g.settings.videoEnabled && Holds(g.cameras, now, id)
    ensures id in Violators(g, room, banned, now) && CanPublishSource(room[id].perm, Camera)
  {
    assert Camera in Desired(g, id, now);
    SyncedHasNoExcess(p, Desired(g, id, now));
    SyncedOffendsExactly(g, room, p, banned, id, now);
  }

  /** A blocked visitor was just muted: no speaker slot is left, the camera slot is. */
  function AfterMute(id: Id): Grounds {
    Grounds(Settings(true, true, true, 1, 1), EMPTY, State(map[id := 60000], 180000), {}, {id})
  }

  lemma MutedYetOffending(id: Id, p: Participant)
    requires IsVisitor(id)
    ensures var g := AfterMute(id);
            && Microphone !in Desired(g, id, 0)
            && id in Violators(g, map[id := Synced(p, Desired(g, id, 0))], {}, 0)
  {
    BlockedHolderOffends(AfterMute(id), map[id := Synced(p, Desired(AfterMute(id), id, 0))], p, {}, id, 0);
  }

  /** The room after one synchronisation, if LiveKit answers and knows the participant. */
  ghost function AfterSync(room: map<Id, Participant>, g: Grounds, id: Id, answers: bool, now: int): map<Id, Participant> {
    if id in room && answers then room[id := Synced(room[id], Desired(g, id, now))] else room
  }

  // ------------------------------------------------------------------
  // Moderation
  // ------------------------------------------------------------------

  /** A blocked visitor entitled to something by a slot not yet taken away. */
  ghost predicate StillHolds(s: Service, id: Id, now: int)
    reads s, s.speakers, s.cameras
  {
    IsVisitor(id) && s.IsSilenced(id) && Desired(s.Now(now), id, now) != []
  }

  /** Only the holding of `id` ends. */
  ghost predicate Freed(slots: State, slots': State, id: Id, now: int) {
    forall x :: Holds(slots', now, x) <==> Holds(slots, now, x) && x != id
  }

  /** How long an agent stays muted: seven hours. */
  const MUTE_MS := 25200000

  /** moderateMute: an agent is marked muted, a visitor loses the slot; either way no microphone is due any more. */
  method Mute(s: Service, id: Id, answers: bool, now: int) returns (affected: nat)
    requires s.Valid(now) && ValidIdentity(id)
    modifies s`room, s`agentMuted, s.speakers
    ensures s.Valid(now) && Microphone !in Desired(s.Now(now), id, now)
    ensures s.speakers.s.score.Keys <= old(s.speakers.s.score).Keys
    ensures IsAgent(id) ==> s.agentMuted == old(s.agentMuted)[id := now + MUTE_MS] && s.speakers.s == old(s.speakers.s)
    ensures !IsAgent(id) ==> s.agentMuted == old(s.agentMuted) && Freed(old(s.speakers.s), s.speakers.s, id, now)
    ensures IsAgent(id) ==> forall t :: s.IsMuted(id, t) <==> t < now + 7 * 3600000
    ensures s.room == AfterSync(old(s.room), s.Now(now), id, answers, now)
    ensures OnlyFor(old(s.Now(now)), s.Now(now), old(s.room), s.room, id, now)
    ensures id in old(s.room) && answers ==> (id in s.Offenders(now) <==> s.IsBanned(id, now) || StillHolds(s, id, now))
    ensures affected == if id in old(s.room) && answers then 1 else 0
  {
    LoseMicrophone(s, id, now);
    affected := 0;
    if id in s.room && answers {
      ghost var p := s.room[id];
      s.SyncPermission(id, now);
      affected := 1;
      SyncedOffendsExactly(s.Now(now), s.room, p, s.BannedIds(now), id, now);
    }
  }

  method LoseMicrophone(s: Service, id: Id, now: int)
    requires s.Valid(now) && ValidIdentity(id)
    modifies s`agentMuted, s.speakers
    ensures s.Valid(now) && s.speakers.s.score.Keys <= old(s.speakers.s.score).Keys
    ensures IsAgent(id) ==> s.agentMuted == old(s.agentMuted)[id := now + MUTE_MS] && s.speakers.s == old(s.speakers.s)
    ensures !IsAgent(id) ==> s.agentMuted == old(s.agentMuted) && Freed(old(s.speakers.s), s.speakers.s, id, now)
    ensures Microphone !in Desired(s.Now(now), id, now)
    ensures forall x :: x != id ==> Desired(s.Now(now), x, now) == Desired(old(s.Now(now)), x, now)
  {
    if IsAgent(id) {
      s.agentMuted := s.agentMuted[id := now + MUTE_MS];
    } else {
      var released := Service.ReleaseHeld(s.speakers, id, now);
    }
  }

  /** moderateCameraOff. */
  method CameraOff(s: Service, id: Id, answers: bool, now: int) returns (affected: nat)
    requires s.Valid(now) && ValidIdentity(id)
    modifies s`room, s.cameras
    ensures s.Valid(now) && Camera !in Desired(s.Now(now), id, now)
    ensures s.cameras.s.score.Keys <= old(s.cameras.s.score).Keys && Freed(old(s.cameras.s), s.cameras.s, id, now)
    ensures s.room == AfterSync(old(s.room), s.Now(now), id, answers, now)
    ensures OnlyFor(old(s.Now(now)), s.Now(now), old(s.room), s.room, id, now)
    ensures id in old(s.room) && answers ==> (id in s.Offenders(now) <==> s.IsBanned(id, now) || StillHolds(s, id, now))
    ensures affected == if id in old(s.room) && answers then 1 else 0
  {
    var released := Service.ReleaseHeld(s.cameras, id, now);
    affected := 0;
    if id in s.room && answers {
      ghost var p := s.room[id];
      s.SyncPermission(id, now);
      affected := 1;
      SyncedOffendsExactly(s.Now(now), s.room, p, s.BannedIds(now), id, now);
    }
  }

  /** moderateKick: banned first, so that whoever cannot be removed now is a violator for the next round. */
  method Kick(s: Service, id: Id, minutes: nat, answers: bool, now: int) returns (affected: nat)
    requires s.Valid(now) && ValidIdentity(id) && 1 <= minutes <= 1440
    modifies s`room, s`bans, s`online, s.speakers, s.cameras
    ensures s.Valid(now) && s.IsBanned(id, now) && id !in s.online && s.bans == old(s.bans)[id := now + minutes * 60000]
    ensures forall t :: s.IsBanned(id, t) <==> t < now + minutes * 60000
    ensures s.speakers.s.score.Keys <= old(s.speakers.s.score).Keys && Freed(old(s.speakers.s), s.speakers.s, id, now)
    ensures s.cameras.s.score.Keys <= old(s.cameras.s.score).Keys && Freed(old(s.cameras.s), s.cameras.s, id, now)
    ensures s.room == (if answers then old(s.room) - {id} else old(s.room))
    ensures OnlyFor(old(s.Now(now)), s.Now(now), old(s.room), s.room, id, now)
    ensures id in s.Offenders(now) <==> id in old(s.room) && !answers
    ensures affected == if id in old(s.room) && answers then 1 else 0
  {
    s.bans := s.bans[id := now + minutes * 60000];
    var spk := Service.ReleaseHeld(s.speakers, id, now);
    var cam := Service.ReleaseHeld(s.cameras, id, now);
    s.online := s.online - {id};
    affected := 0;
    if answers {
      affected := if id in s.room then 1 else 0;
      s.room := s.room - {id};
    }
    assert s.IsBanned(id, now) && id in s.BannedIds(now);
  }

  // ------------------------------------------------------------------
  // Taking a source from everybody
  // ------------------------------------------------------------------

  predicate HasTrack(p: Participant, src: Source) {
    exists i :: 0 <= i < |p.tracks| && p.tracks[i].source == src
  }

  predicate InScope(id: Id, visitorsOnly: bool) {
    if visitorsOnly then IsVisitor(id) else ValidIdentity(id)
  }

  ghost predicate Targeted(slots: State, p: Participant, id: Id, src: Source, now: int) {
    Holds(slots, now, id) || (exists i :: 0 <= i < |p.tracks| && p.tracks[i].source == src) || CanPublishSource(p.perm, src)
  }

  /**
    moderateMuteAll (the microphones of visitors), revokeAllMics and revokeAllCameras (everybody's), every call
    succeeding: the slots are cleared, those who held one, have a track of the source or may publish it get what is
    then due, and nobody in scope may publish the source any more unless it is due without a slot.
   */
  method RevokeAll(s: Service, kind: SlotKind, visitorsOnly: bool, now: int)
    requires s.Valid(now)
    modifies s`room, s.Slot(kind)
    ensures s.Valid(now) && s.Slot(kind).s.score == map[] && s.room.Keys == old(s.room).Keys
    ensures forall id :: id in s.room && (IsVisitor(id) || (!visitorsOnly && IsAgent(id))) && CanPublishSource(s.room[id].perm, SourceOf(kind)) ==>
              SourceOf(kind) in Desired(s.Now(now), id, now)
    ensures forall id :: id in s.room ==>
              s.room[id] == if Targeted(old(s.Slot(kind).s), old(s.room)[id], id, SourceOf(kind), now)
                               && (IsVisitor(id) || (!visitorsOnly && IsAgent(id)))
                            then Synced(old(s.room)[id], Desired(s.Now(now), id, now)) else old(s.room)[id]
  {
    var src := SourceOf(kind);
    var members := s.Slot(kind).SlotMembers(now);
    s.Slot(kind).ClearSlots(now);
    var targets := members + set id | id in s.room && (HasTrack(s.room[id], src) || CanPublishSource(s.room[id].perm, src));
    SyncAll(s, targets, visitorsOnly, now);
    OnlyDueIsLeft(s.Now(now), old(s.room), s.room, targets, visitorsOnly, src, now);
  }

  /** Synchronising everybody who has a track of the source or may publish it leaves only those to whom it is due. */
  lemma OnlyDueIsLeft(g: Grounds, before: map<Id, Participant>, room: map<Id, Participant>, targets: set<Id>,
                      visitorsOnly: bool, src: Source, now: int)
    requires room.Keys == before.Keys
    requires forall id :: id in before && CanPublishSource(before[id].perm, src) ==> id in targets
    requires forall id :: id in room ==>
               room[id] == if id in targets && InScope(id, visitorsOnly) then Synced(before[id], Desired(g, id, now)) else before[id]
    ensures forall id :: id in room && InScope(id, visitorsOnly) && CanPublishSource(room[id].perm, src) ==> src in Desired(g, id, now)
  {
    forall id | id in room && InScope(id, visitorsOnly) && CanPublishSource(room[id].perm, src)
      ensures src in Desired(g, id, now)
    {
      if id in targets {
        SyncedHasNoExcess(before[id], Desired(g, id, now));
      }
    }
  }

  method SyncAll(s: Service, targets: set<Id>, visitorsOnly: bool, now: int)
    requires s.Valid(now)
    modifies s`room
    ensures s.room.Keys == old(s.room).Keys
    ensures forall id :: id in s.room ==>
              s.room[id] == if id in targets && InScope(id, visitorsOnly) then Synced(old(s.room)[id], Desired(s.Now(now), id, now))
                            else old(s.room)[id]
  {
    var rest := targets;
    while rest != {}
      invariant rest <= targets && s.room.Keys == old(s.room).Keys
      invariant forall id :: id in s.room ==>
                  s.room[id] == if id in targets - rest && InScope(id, visitorsOnly)
                                then Synced(old(s.room)[id], Desired(s.Now(now), id, now)) else old(s.room)[id]
      decreases rest
    {
      var id := Any(rest);
      rest := rest - {id};
      if InScope(id, visitorsOnly) && id in s.room {
        s.SyncPermission(id, now);
      }
    }
  }

  /** With its slots cleared no camera is due, nor a visitor's microphone, nor, with voice off, any microphone. */
  lemma NothingDueWithoutSlots(g: Grounds, kind: SlotKind, id: Id, now: int)
    requires (if kind.SpeakerSlot? then g.speakers else g.cameras).score == map[]
    requires kind.CameraSlot? || !IsAgent(id) || !g.settings.voiceEnabled
    ensures SourceOf(kind) !in Desired(g, id, now)
  {
  }

  // ------------------------------------------------------------------
  // Webhooks
  // ------------------------------------------------------------------

  datatype Event =
    | ParticipantJoined(who: Id)
    | ParticipantLeft(who: Id)
    | TrackPublished(who: Id, source: Source)
    | RoomFinished
    | Other

  /** A publication that is not due; a source LiveKit does not name is let through. */
  ghost predicate Unbacked(g: Grounds, id: Id, source: Source, now: int) {
    ValidIdentity(id) && source != UnknownSource && source !in Desired(g, id, now)
  }

  /** track_published: the permission is set to what is due exactly when the published source is not. */
  method OnTrackPublished(s: Service, id: Id, source: Source, answers: bool, now: int) returns (revoked: bool)
    requires s.Valid(now)
    modifies s`room, s.speakers, s.cameras
    ensures s.Valid(now)
    ensures revoked <==> Unbacked(old(s.Now(now)), id, source, now)
    ensures s.speakers.s.score.Keys <= old(s.speakers.s.score).Keys && s.cameras.s.score.Keys <= old(s.cameras.s.score).Keys
    ensures forall x :: Desired(s.Now(now), x, now) == Desired(old(s.Now(now)), x, now)
    ensures s.room == if revoked then AfterSync(old(s.room), s.Now(now), id, answers, now) else old(s.room)
    ensures if ValidIdentity(id) && source == Camera && !s.settings.videoEnabled then Freed(old(s.cameras.s), s.cameras.s, id, now)
            else s.cameras.s == old(s.cameras.s)
    ensures if ValidIdentity(id) && source == Microphone && !s.settings.voiceEnabled then Freed(old(s.speakers.s), s.speakers.s, id, now)
            else s.speakers.s == old(s.speakers.s)
  {
    revoked := MustRevoke(s, id, source, now);
    if revoked {
      if !s.settings.videoEnabled && source == Camera {
        var released := Service.ReleaseHeld(s.cameras, id, now);
      }
      if id in s.room && answers {
        s.SyncPermission(id, now);
      }
    }
  }

  /** Whether the source is to be taken back; with voice off the speaker slot goes at once. */
  method MustRevoke(s: Service, id: Id, source: Source, now: int) returns (revoked: bool)
    requires s.Valid(now)
    modifies s.speakers
    ensures s.Valid(now) && s.speakers.s.score.Keys <= old(s.speakers.s.score).Keys
    ensures revoked <==> Unbacked(old(s.Now(now)), id, source, now)
    ensures forall x :: Desired(s.Now(now), x, now) == Desired(old(s.Now(now)), x, now)
    ensures if ValidIdentity(id) && source == Microphone && !s.settings.voiceEnabled then Freed(old(s.speakers.s), s.speakers.s, id, now)
            else s.speakers.s == old(s.speakers.s)
  {
    revoked := false;
    if !ValidIdentity(id) {
      return;
    }
    if source == Camera {
      var held := s.cameras.HoldsSlot(id, now);
      revoked := !s.settings.videoEnabled || !held;
    } else if source == Microphone {
      if !s.settings.voiceEnabled {
        revoked := true;
        var released := Service.ReleaseHeld(s.speakers, id, now);
      } else if IsVisitor(id) {
        var held := s.speakers.HoldsSlot(id, now);
        revoked := !held;
      } else if s.IsMuted(id, now) {
        revoked := true;
      }
    } else if source == ScreenShare || source == ScreenShareAudio {
      revoked := true;
    }
  }

  /** processWebhook; the event itself has already changed LiveKit's room. */
  method ProcessWebhook(s: Service, ev: Event, answers: bool, now: int)
    requires s.Valid(now)
    modifies s`room, s`online, s.speakers, s.cameras
    ensures s.Valid(now)
    ensures s.speakers.s.score.Keys <= old(s.speakers.s.score).Keys && s.cameras.s.score.Keys <= old(s.cameras.s.score).Keys
    ensures ev.ParticipantJoined? && ValidIdentity(ev.who) && answers && (!s.settings.enabled || s.IsBanned(ev.who, now)) ==>
              ev.who !in s.room
    ensures ev.ParticipantJoined? ==>
              && s.room == (if ValidIdentity(ev.who) && (!s.settings.enabled || s.IsBanned(ev.who, now)) && answers
                            then old(s.room) - {ev.who} else old(s.room))
              && s.Now(now) == old(s.Now(now))
    ensures ev.ParticipantLeft? ==>
              && ev.who !in s.online && s.room == old(s.room)
              && Freed(old(s.speakers.s), s.speakers.s, ev.who, now) && Freed(old(s.cameras.s), s.cameras.s, ev.who, now)
              && OnlyFor(old(s.Now(now)), s.Now(now), old(s.room), s.room, ev.who, now)
    ensures ev.TrackPublished? ==>
              && (forall x :: Desired(s.Now(now), x, now) == Desired(old(s.Now(now)), x, now))
              && s.room == if Unbacked(old(s.Now(now)), ev.who, ev.source, now) then AfterSync(old(s.room), s.Now(now), ev.who, answers, now)
                        else old(s.room)
    ensures ev.RoomFinished? ==> s.room == old(s.room) && s.online == {} && s.speakers.s.score == map[] && s.cameras.s.score == map[]
    ensures ev.Other? ==> s.room == old(s.room) && s.Now(now) == old(s.Now(now))
  {
    match ev
    case ParticipantJoined(id) =>
      if ValidIdentity(id) {
        s.online := s.online + {id};
        if (!s.settings.enabled || s.IsBanned(id, now)) && answers {
          s.room := s.room - {id};
        }
      }
    case ParticipantLeft(id) =>
      s.online := s.online - {id};
      var spk := Service.ReleaseHeld(s.speakers, id, now);
      var cam := Service.ReleaseHeld(s.cameras, id, now);
    case TrackPublished(id, source) =>
      var revoked := OnTrackPublished(s, id, source, answers, now);
    case RoomFinished =>
      s.online := {};
      s.speakers.ClearSlots(now);
      s.cameras.ClearSlots(now);
    case Other =>
  }
}
