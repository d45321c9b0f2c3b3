/**
  The hall over whole runs: the service's calls (backend/internal/hall/media.go, moderation.go, webhook.go and
  reconcile.go), in any order, between what happens around them: time passes, LiveKit lets participants in and out,
  administrators change the settings and block visitors. Which of these makes a violator, and exactly when.
 */
module HallRuns {
  import opened Permissions
  import opened Slots
  import opened Hall
  import opened HallSteps
  import opened Collections

  datatype World = World(settings: Settings, speakers: State, cameras: State, muted: map<Id, int>, silenced: set<Id>,
                         bans: map<Id, int>, room: map<Id, Participant>, lease: int, now: int)

  /** `answers` says whether LiveKit answers, `blocked` what the database says of the visitor. */
  datatype Act =
    | TurnOn(id: Id, kind: SlotKind, blocked: bool, granted: bool)
    | TurnOff(id: Id, kind: SlotKind, answers: bool)
    | MuteOne(id: Id, answers: bool)
    | CameraOffOne(id: Id, answers: bool)
    | KickOne(id: Id, minutes: nat, answers: bool)
    | Revoke(kind: SlotKind, visitorsOnly: bool)
    | Hook(ev: HallSteps.Event, answers: bool)
    | Round(ids: seq<Id>)
    | Wait(until: int)
    | Enter(id: Id, p: Participant)
    | Depart(id: Id)
    | Unmute(id: Id)
    | Block(silenced: set<Id>)
    | Configure(settings: Settings)

  ghost function Base(w: World): Grounds {
    Grounds(w.settings, w.speakers, w.cameras, Muted(w), w.silenced)
  }

  ghost function Muted(w: World): set<Id> {
    set id | id in w.muted && w.muted[id] > w.now
  }

  ghost function Banned(w: World): set<Id> {
    set id | id in w.bans && w.bans[id] > w.now
  }

  ghost function DesiredIn(w: World, id: Id): seq<Source> {
    Desired(Base(w), id, w.now)
  }

  ghost function Violating(w: World): set<Id> {
    Violators(Base(w), w.room, Banned(w), w.now)
  }

  function SlotsOf(w: World, kind: SlotKind): State {
    if kind.SpeakerSlot? then w.speakers else w.cameras
  }

  function OtherKind(kind: SlotKind): SlotKind {
    if kind.SpeakerSlot? then CameraSlot else SpeakerSlot
  }

  /** No more leases, ended ones included, than the limits. */
  ghost predicate Bounded(w: World) {
    |w.speakers.score| <= w.settings.maxSpeakers && |w.cameras.score| <= w.settings.maxCameras
  }

  // ------------------------------------------------------------------
  // Steps
  // ------------------------------------------------------------------

  ghost predicate SameHolds(s: State, s': State, now: int) {
    forall x :: Holds(s', now, x) <==> Holds(s, now, x)
  }

  /** Nothing but slots and the room has changed. */
  ghost predicate Calm(w: World, w': World) {
    w' == w.(speakers := w'.speakers, cameras := w'.cameras, room := w'.room)
  }

  /** One slot given up, and the permission set to what is then due if LiveKit answers. */
  ghost predicate GaveUp(w: World, w': World, kind: SlotKind, id: Id, answers: bool) {
    && Calm(w, w') && Freed(SlotsOf(w, kind), SlotsOf(w', kind), id, w.now)
    && SlotsOf(w', OtherKind(kind)) == SlotsOf(w, OtherKind(kind))
    && w'.room == AfterSync(w.room, Base(w'), id, answers, w.now)
  }

  ghost predicate TookOn(w: World, w': World, id: Id, kind: SlotKind, blocked: bool, granted: bool) {
    && Calm(w, w') && SlotsOf(w', OtherKind(kind)) == SlotsOf(w, OtherKind(kind))
    && (IsVisitor(id) || (IsAgent(id) && kind.CameraSlot?))
    && (forall x :: x != id ==> (Holds(SlotsOf(w', kind), w.now, x) <==> Holds(SlotsOf(w, kind), w.now, x)))
    && if granted then
         && id in w.room && id !in Banned(w) && !(IsVisitor(id) && blocked) && SourceOf(kind) in DesiredIn(w', id)
         && w'.room == w.room[id := Synced(w.room[id], DesiredIn(w', id))]
       else w'.room == w.room && SameHolds(SlotsOf(w, kind), SlotsOf(w', kind), w.now)
  }

  ghost predicate TookMute(w: World, w': World, id: Id, answers: bool) {
    && ValidIdentity(id)
    && if IsAgent(id) then
         w' == w.(muted := w.muted[id := w.now + MUTE_MS], room := AfterSync(w.room, Base(w'), id, answers, w.now))
       else GaveUp(w, w', SpeakerSlot, id, answers)
  }

  ghost predicate TookRevoke(w: World, w': World, kind: SlotKind, visitorsOnly: bool) {
    && (visitorsOnly ==> kind.SpeakerSlot?)
    && Calm(w, w') && SlotsOf(w', kind).score == map[] && SlotsOf(w', OtherKind(kind)) == SlotsOf(w, OtherKind(kind))
    && w'.room.Keys == w.room.Keys
    && forall x :: x in w.room ==>
         w'.room[x] == if Targeted(SlotsOf(w, kind), w.room[x], x, SourceOf(kind), w.now)
                          && (IsVisitor(x) || (!visitorsOnly && IsAgent(x)))
                       then Synced(w.room[x], DesiredIn(w', x)) else w.room[x]
  }

  ghost predicate TookHook(w: World, w': World, ev: HallSteps.Event, answers: bool) {
    && Calm(w, w')
    && match ev
       case ParticipantJoined(id) =>
         && w'.speakers == w.speakers && w'.cameras == w.cameras
         && w'.room == if ValidIdentity(id) && (!w.settings.enabled || id in Banned(w)) && answers then w.room - {id} else w.room
       case ParticipantLeft(id) =>
         w'.room == w.room && Freed(w.speakers, w'.speakers, id, w.now) && Freed(w.cameras, w'.cameras, id, w.now)
       case TrackPublished(id, source) =>
         && (forall x :: DesiredIn(w', x) == DesiredIn(w, x))
         && w'.room == if Unbacked(Base(w), id, source, w.now) then AfterSync(w.room, Base(w), id, answers, w.now) else w.room
       case RoomFinished => w'.room == w.room && w'.speakers.score == map[] && w'.cameras.score == map[]
       case Other => w' == w
  }

  ghost predicate TookRound(w: World, w': World, ids: seq<Id>) {
    && Calm(w, w')
    && if w.settings.enabled then
         && RoundSlots(Base(w), w'.speakers, w'.cameras, w.room, Banned(w), ids, w.now, w.lease)
         && OnlyOffendersTouched(Base(w), w.room, w'.room, Violating(w), w.now)
         && Violating(w') <= Violating(w)
         && |Violating(w')| == |Violating(w)| - Min(|Violating(w)|, MAX_RECONCILE_CALLS)
       else
         && w'.room == w.room - (set id | id in ids[..Min(|ids|, MAX_RECONCILE_CALLS)])
         && w'.speakers.score == map[] && w'.cameras.score == map[]
  }

  /** What one step does. */
  ghost predicate Took(w: World, w': World, act: Act) {
    match act
    case TurnOn(id, kind, blocked, granted) => TookOn(w, w', id, kind, blocked, granted)
    case TurnOff(id, kind, answers) =>
      && (IsVisitor(id) || (IsAgent(id) && kind.CameraSlot?))
      && if w.settings.enabled then GaveUp(w, w', kind, id, answers) else TookOn(w, w', id, kind, false, false)
    case MuteOne(id, answers) => TookMute(w, w', id, answers)
    case CameraOffOne(id, answers) => ValidIdentity(id) && GaveUp(w, w', CameraSlot, id, answers)
    case KickOne(id, minutes, answers) =>
      && ValidIdentity(id) && 1 <= minutes
      && w' == w.(bans := w.bans[id := w.now + minutes * 60000], speakers := w'.speakers, cameras := w'.cameras,
                  room := if answers then w.room - {id} else w.room)
      && Freed(w.speakers, w'.speakers, id, w.now) && Freed(w.cameras, w'.cameras, id, w.now)
    case Revoke(kind, visitorsOnly) => TookRevoke(w, w', kind, visitorsOnly)
    case Hook(ev, answers) => TookHook(w, w', ev, answers)
    case Round(ids) => TookRound(w, w', ids)
    case Wait(until) => until >= w.now && w' == w.(now := until)
    case Enter(id, p) => w' == w.(room := w.room[id := p])
    case Depart(id) => w' == w.(room := w.room - {id})
    case Unmute(id) => w' == w.(muted := w.muted - {id})
    case Block(silenced) => w' == w.(silenced := silenced)
    case Configure(settings) => w' == w.(settings := settings)
  }

  /** Only new limits can leave more leases than there may be. */
  ghost predicate Step(w: World, w': World, act: Act) {
    Took(w, w', act) && (Bounded(w) && (act.Configure? ==> Bounded(w.(settings := act.settings))) ==> Bounded(w'))
  }

  // ------------------------------------------------------------------
  // What makes a violator
  // ------------------------------------------------------------------

  ghost predicate Using(w: World, x: Id, src: Source) {
    x in w.room && CanPublishSource(w.room[x].perm, src)
  }

  /** May publish something that depends on a slot: agents need none for the microphone. */
  ghost predicate UsesSlot(w: World, x: Id) {
    Using(w, x, Camera) || (IsVisitor(x) && Using(w, x, Microphone))
  }

  ghost predicate SilencedVisitor(w: World, x: Id) {
    IsVisitor(x) && x in w.silenced
  }

  /** Giving up a slot: LiveKit does not take the right back, or it gives a blocked visitor the right of the other slot. */
  ghost predicate GiveUpBlame(w: World, x: Id, kind: SlotKind, answers: bool) {
    if answers then x in w.room && SilencedVisitor(w, x) && SourceOf(OtherKind(kind)) in DesiredIn(w, x)
    else Using(w, x, SourceOf(kind))
  }

  /** `act` is what makes `x`, no violator in `w`, one: a condition on the state before. */
  ghost predicate Blame(w: World, act: Act, x: Id) {
    match act
    case TurnOn(id, _, _, granted) => x == id && granted && SilencedVisitor(w, x)
    case TurnOff(id, kind, answers) => x == id && w.settings.enabled && GiveUpBlame(w, x, kind, answers)
    case MuteOne(id, answers) => x == id && GiveUpBlame(w, x, SpeakerSlot, answers)
    case CameraOffOne(id, answers) => x == id && GiveUpBlame(w, x, CameraSlot, answers)
    case KickOne(id, _, answers) => x == id && x in w.room && !answers
    case Revoke(kind, _) =>
      && x in w.room && Targeted(SlotsOf(w, kind), w.room[x], x, SourceOf(kind), w.now)
      && SilencedVisitor(w, x) && SourceOf(OtherKind(kind)) in DesiredIn(w, x)
    case Hook(ev, answers) =>
      (match ev
       case ParticipantLeft(id) => x == id && UsesSlot(w, x)
       case TrackPublished(id, source) =>
         && x == id && x in w.room && answers && Unbacked(Base(w), x, source, w.now)
         && SilencedVisitor(w, x) && DesiredIn(w, x) != []
       case RoomFinished => UsesSlot(w, x)
       case _ => false)
    case Round(ids) => !w.settings.enabled && UsesSlot(w, x) && x !in ids[..Min(|ids|, MAX_RECONCILE_CALLS)]
    case Wait(until) =>
      || (Using(w, x, Camera) && !Holds(w.cameras, until, x))
      || (IsVisitor(x) && Using(w, x, Microphone) && !Holds(w.speakers, until, x))
    case Enter(id, p) => x == id && (x in Banned(w) || Excess(p, Due(Base(w), x, w.now)))
    case Block(silenced) => IsVisitor(x) && x in silenced && (Using(w, x, Microphone) || Using(w, x, Camera))
    case Configure(settings) =>
      (Using(w, x, Microphone) && !settings.voiceEnabled) || (Using(w, x, Camera) && !settings.videoEnabled)
    case _ => false
  }

  /** One whom the step leaves as is in the room offends afterwards exactly if it uses what is no longer due. */
  lemma Untouched(w: World, w': World, x: Id)
    requires ValidIdentity(x) && x !in Violating(w) && x in w.room && x in w'.room && w'.room[x] == w.room[x]
    requires x in Banned(w') ==> x in Banned(w)
    ensures x in Violating(w') <==>
            || (Using(w, x, Microphone) && Microphone !in Due(Base(w'), x, w'.now))
            || (Using(w, x, Camera) && Camera !in Due(Base(w'), x, w'.now))
    ensures x !in Banned(w)
    ensures Using(w, x, Microphone) ==> !SilencedVisitor(w, x) && HasMic(Base(w), x, w.now)
    ensures Using(w, x, Camera) ==> !SilencedVisitor(w, x) && HasCamera(Base(w), x, w.now)
  {
  }

  /** One who was synchronised offends exactly if banned, or blocked and still entitled to something. */
  lemma SyncedTo(w': World, p: Participant, x: Id)
    requires ValidIdentity(x) && x in w'.room && w'.room[x] == Synced(p, DesiredIn(w', x))
    ensures x in Violating(w') <==> x in Banned(w') || (SilencedVisitor(w', x) && DesiredIn(w', x) != [])
  {
    SyncedOffendsExactly(Base(w'), w'.room, p, Banned(w'), x, w'.now);
  }

  lemma SameDesired(w: World, w': World, x: Id)
    requires Calm(w, w') && (Holds(w'.speakers, w.now, x) <==> Holds(w.speakers, w.now, x))
    requires Holds(w'.cameras, w.now, x) <==> Holds(w.cameras, w.now, x)
    ensures DesiredIn(w', x) == DesiredIn(w, x)
  {
  }

  lemma GaveUpBlame(w: World, w': World, kind: SlotKind, id: Id, answers: bool, x: Id)
    requires GaveUp(w, w', kind, id, answers) && ValidIdentity(x) && x !in Violating(w)
    requires IsAgent(id) ==> kind.CameraSlot?
    ensures x in Violating(w') <==> x == id && GiveUpBlame(w, x, kind, answers)
  {
    if x in w.room {
      if x == id && answers {
        SyncedTo(w', w.room[x], x);
        assert DesiredIn(w', x) != [] ==> DesiredIn(w', x)[0] in DesiredIn(w', x);
      } else {
        Untouched(w, w', x);
      }
    }
  }

  lemma TurnedOnBlame(w: World, w': World, id: Id, kind: SlotKind, blocked: bool, granted: bool, x: Id)
    requires TookOn(w, w', id, kind, blocked, granted) && ValidIdentity(x) && x !in Violating(w)
    ensures x in Violating(w') <==> x == id && granted && SilencedVisitor(w, x)
  {
    if x in w.room {
      if x == id && granted {
        SyncedTo(w', w.room[x], x);
      } else {
        assert Holds(SlotsOf(w', kind), w.now, x) <==> Holds(SlotsOf(w, kind), w.now, x);
        SameDesired(w, w', x);
        Untouched(w, w', x);
      }
    }
  }

  lemma MutedBlame(w: World, w': World, id: Id, answers: bool, x: Id)
    requires TookMute(w, w', id, answers) && ValidIdentity(x) && x !in Violating(w)
    ensures x in Violating(w') <==> x == id && GiveUpBlame(w, x, SpeakerSlot, answers)
  {
    if !IsAgent(id) {
      GaveUpBlame(w, w', SpeakerSlot, id, answers, x);
    } else if x in w.room {
      MutedSet(w, w', id);
      if x == id && answers {
        SyncedTo(w', w.room[x], x);
      } else {
        Untouched(w, w', x);
      }
    }
  }

  lemma MutedSet(w: World, w': World, id: Id)
    requires w'.muted == w.muted[id := w.now + MUTE_MS] && w'.now == w.now
    ensures Muted(w') == Muted(w) + {id}
  {
  }

  lemma KickedBlame(w: World, w': World, id: Id, minutes: nat, answers: bool, x: Id)
    requires Took(w, w', KickOne(id, minutes, answers)) && ValidIdentity(x) && x !in Violating(w)
    ensures x in Violating(w') <==> x == id && x in w.room && !answers
  {
    if x in w.room && x != id {
      Untouched(w, w', x);
    }
    assert id in Banned(w');
  }

  lemma RevokedBlame(w: World, w': World, kind: SlotKind, visitorsOnly: bool, x: Id)
    requires TookRevoke(w, w', kind, visitorsOnly) && ValidIdentity(x) && x !in Violating(w)
    ensures x in Violating(w') <==> Blame(w, Revoke(kind, visitorsOnly), x)
  {
    if x in w.room {
      if Targeted(SlotsOf(w, kind), w.room[x], x, SourceOf(kind), w.now) && (IsVisitor(x) || (!visitorsOnly && IsAgent(x))) {
        SyncedTo(w', w.room[x], x);
        assert DesiredIn(w', x) != [] ==> DesiredIn(w', x)[0] in DesiredIn(w', x);
      } else {
        Untouched(w, w', x);
      }
    }
  }

  lemma PublishedBlame(w: World, w': World, id: Id, source: Source, answers: bool, x: Id)
    requires TookHook(w, w', TrackPublished(id, source), answers) && ValidIdentity(x) && x !in Violating(w)
    ensures x in Violating(w') <==> Blame(w, Hook(TrackPublished(id, source), answers), x)
  {
    if x in w.room {
      assert DesiredIn(w', x) == DesiredIn(w, x);
      if id == x && answers && Unbacked(Base(w), x, source, w.now) {
        SyncedTo(w', w.room[x], x);
      } else {
        Untouched(w, w', x);
      }
    }
  }

  lemma HookedBlame(w: World, w': World, ev: HallSteps.Event, answers: bool, x: Id)
    requires TookHook(w, w', ev, answers) && ValidIdentity(x) && x !in Violating(w)
    ensures x in Violating(w') <==> Blame(w, Hook(ev, answers), x)
  {
    if x in w.room && x in w'.room && !ev.TrackPublished? {
      Untouched(w, w', x);
    }
    match ev
    case ParticipantJoined(id) => assert Base(w') == Base(w);
    case ParticipantLeft(id) =>
      if x != id {
        SameDesired(w, w', x);
      }
    case TrackPublished(id, source) => PublishedBlame(w, w', id, source, answers, x);
    case RoomFinished =>
    case Other =>
  }

  lemma RoundBlame(w: World, w': World, ids: seq<Id>, x: Id)
    requires TookRound(w, w', ids) && ValidIdentity(x) && x !in Violating(w)
    ensures x in Violating(w') <==> Blame(w, Round(ids), x)
  {
    if !w.settings.enabled && x in w'.room {
      Untouched(w, w', x);
    }
  }

  /** What happens around the service. */
  lemma AroundBlame(w: World, w': World, act: Act, x: Id)
    requires act.Wait? || act.Enter? || act.Depart? || act.Unmute? || act.Block? || act.Configure?
    requires Took(w, w', act) && ValidIdentity(x) && x !in Violating(w)
    ensures x in Violating(w') <==> Blame(w, act, x)
  {
    if x in w.room && x in w'.room && !(act.Enter? && act.id == x) {
      Untouched(w, w', x);
    }
  }

  /** A step makes a violator of one who was none exactly if it is to blame. */
  lemma BlameExact(w: World, w': World, act: Act, x: Id)
    requires Took(w, w', act) && ValidIdentity(x) && x !in Violating(w)
    ensures x in Violating(w') <==> Blame(w, act, x)
  {
    match act
    case TurnOn(id, kind, blocked, granted) => TurnedOnBlame(w, w', id, kind, blocked, granted, x);
    case TurnOff(id, kind, answers) =>
      if w.settings.enabled {
        GaveUpBlame(w, w', kind, id, answers, x);
      } else {
        TurnedOnBlame(w, w', id, kind, false, false, x);
      }
    case MuteOne(id, answers) => MutedBlame(w, w', id, answers, x);
    case CameraOffOne(id, answers) => GaveUpBlame(w, w', CameraSlot, id, answers, x);
    case KickOne(id, minutes, answers) => KickedBlame(w, w', id, minutes, answers, x);
    case Revoke(kind, visitorsOnly) => RevokedBlame(w, w', kind, visitorsOnly, x);
    case Hook(ev, answers) => HookedBlame(w, w', ev, answers, x);
    case Round(ids) => RoundBlame(w, w', ids, x);
    case _ => AroundBlame(w, w', act, x);
  }

  // ------------------------------------------------------------------
  // Whole runs
  // ------------------------------------------------------------------

  /** `ws` are the states of a run that takes the steps `acts`. */
  ghost predicate Run(ws: seq<World>, acts: seq<Act>) {
    |ws| == |acts| + 1 && forall i :: 0 <= i < |acts| ==> Step(ws[i], ws[i + 1], acts[i])
  }

  /** Step `i` made `x` a violator, and `x` has been one ever since. */
  ghost predicate MadeBy(ws: seq<World>, acts: seq<Act>, x: Id, i: nat)
    requires |ws| == |acts| + 1
  {
    i < |acts| && x !in Violating(ws[i]) && Blame(ws[i], acts[i], x) && forall j :: i < j < |ws| ==> x in Violating(ws[j])
  }

  ghost predicate Made(ws: seq<World>, acts: seq<Act>, x: Id)
    requires |ws| == |acts| + 1
  {
    exists i: nat :: MadeBy(ws, acts, x, i)
  }

  /** Whoever offends after a run has done so all along, or a step of the run is to blame. */
  lemma {:induction false} ViolatorsAreMade(ws: seq<World>, acts: seq<Act>, x: Id)
    requires Run(ws, acts) && x in Violating(ws[|acts|])
    ensures (forall j :: 0 <= j < |ws| ==> x in Violating(ws[j])) || Made(ws, acts, x)
    decreases |acts|
  {
    if acts != [] {
      var n := |acts| - 1;
      var ws0, acts0 := ws[..n + 1], acts[..n];
      if x !in Violating(ws[n]) {
        BlameExact(ws[n], ws[n + 1], acts[n], x);
        assert MadeBy(ws, acts, x, n);
      } else {
        ViolatorsAreMade(ws0, acts0, x);
        if Made(ws0, acts0, x) {
          StillMade(ws, acts, x);
        }
      }
    }
  }

  lemma StillMade(ws: seq<World>, acts: seq<Act>, x: Id)
    requires acts != [] && |ws| == |acts| + 1 && Made(ws[..|acts|], acts[..|acts| - 1], x) && x in Violating(ws[|acts|])
    ensures Made(ws, acts, x)
  {
    var ws0, acts0 := ws[..|acts|], acts[..|acts| - 1];
    var i: nat :| MadeBy(ws0, acts0, x, i);
    assert ws0[i] == ws[i] && acts0[i] == acts[i];
    forall j | i < j < |ws|
      ensures x in Violating(ws[j])
    {
      if j < |acts| {
        assert ws0[j] == ws[j];
      }
    }
    assert MadeBy(ws, acts, x, i);
  }

  /** No step of the run makes a violator, and no new limit is below the leases there are. */
  ghost predicate Blameless(ws: seq<World>, acts: seq<Act>)
    requires |ws| == |acts| + 1
  {
    && (forall i, x :: 0 <= i < |acts| && ValidIdentity(x) ==> !Blame(ws[i], acts[i], x))
    && (forall i :: 0 <= i < |acts| && acts[i].Configure? ==> Bounded(ws[i].(settings := acts[i].settings)))
  }

  lemma {:induction false} NoneIsMade(ws: seq<World>, acts: seq<Act>, k: nat)
    requires Run(ws, acts) && Blameless(ws, acts) && k < |ws|
    requires Bounded(ws[0]) && Violating(ws[0]) == {}
    ensures Bounded(ws[k]) && Violating(ws[k]) == {}
  {
    if k > 0 {
      NoneIsMade(ws, acts, k - 1);
      var w, w', act := ws[k - 1], ws[k], acts[k - 1];
      assert Step(w, w', act);
      forall x | x in Violating(w')
        ensures x in Violating(w)
      {
        if x !in Violating(w) {
          BlameExact(w, w', act, x);
        }
      }
    }
  }

  /** What it means that nobody offends. */
  lemma NobodyOffends(w: World)
    requires Bounded(w) && Violating(w) == {}
    ensures forall id :: id in w.room && ValidIdentity(id) ==> id !in Banned(w)
    ensures |MicVisitors(w.room)| <= w.settings.maxSpeakers && |CameraHolders(w.room)| <= w.settings.maxCameras
  {
    forall id | id in w.room && ValidIdentity(id)
      ensures id !in Banned(w)
    {
      NoViolatorsWithinDue(Base(w), w.room, Banned(w), w.now, id, Microphone);
    }
    NoViolatorsWithinLimits(Base(w), w.room, Banned(w), w.now);
  }

  /**
    In a blameless run that starts well, at every moment: nobody banned is in the room, nobody has a right beyond what
    is due, at most MaxSpeakers visitors may publish a microphone and at most MaxCameras participants a camera.
   */
  lemma BlamelessRunsAreSafe(ws: seq<World>, acts: seq<Act>, k: nat)
    requires Run(ws, acts) && Blameless(ws, acts) && k < |ws|
    requires Bounded(ws[0]) && Violating(ws[0]) == {}
    ensures Violating(ws[k]) == {}
    ensures forall id :: id in ws[k].room && ValidIdentity(id) ==> id !in Banned(ws[k])
    ensures |MicVisitors(ws[k].room)| <= ws[k].settings.maxSpeakers && |CameraHolders(ws[k].room)| <= ws[k].settings.maxCameras
  {
    NoneIsMade(ws, acts, k);
    NobodyOffends(ws[k]);
  }

  // ------------------------------------------------------------------
  // Leases in use are kept
  // ------------------------------------------------------------------

  /** Whoever speaks or films with a slot during a round keeps it for a whole term from then. */
  lemma RoundKeepsUsed(w: World, w': World, ids: seq<Id>, id: Id, until: int)
    requires TookRound(w, w', ids) && w.settings.enabled && id in ids && id in w.room && id !in Banned(w) && !SilencedVisitor(w, id)
    requires w.now <= until < w.now + w.lease
    ensures w.settings.voiceEnabled && IsVisitor(id) && Unmuted(w.room[id], Microphone) && Holds(w.speakers, w.now, id) ==>
              Holds(w'.speakers, until, id)
    ensures w.settings.videoEnabled && ValidIdentity(id) && Unmuted(w.room[id], Camera) && Holds(w.cameras, w.now, id) ==>
              Holds(w'.cameras, until, id)
  {
    if Holds(w.speakers, w.now, id) && w.settings.voiceEnabled {
      assert Holds(w'.speakers, w.now, id);
    }
    if Holds(w.cameras, w.now, id) && w.settings.videoEnabled {
      assert Holds(w'.cameras, w.now, id);
    }
  }

  // ------------------------------------------------------------------
  // Enforcement keeps up
  // ------------------------------------------------------------------

  /** How many violators the steps of a run make; each of them is made by a step that is to blame (BlameExact). */
  ghost function MadeIn(ws: seq<World>, acts: seq<Act>): nat
    requires |ws| == |acts| + 1
    decreases |acts|
  {
    if acts == [] then 0
    else
      var n := |acts| - 1;
      MadeIn(ws[..n + 1], acts[..n]) + |Violating(ws[n + 1]) - Violating(ws[n])|
  }

  lemma {:induction false} AtMostMade(ws: seq<World>, acts: seq<Act>)
    requires Run(ws, acts)
    ensures |Violating(ws[|acts|])| <= |Violating(ws[0])| + MadeIn(ws, acts)
    decreases |acts|
  {
    if acts != [] {
      var n := |acts| - 1;
      AtMostMade(ws[..n + 1], acts[..n]);
      var v, v' := Violating(ws[n]), Violating(ws[n + 1]);
      SubsetSize(v', v + (v' - v));
    }
  }

  /** Any steps at all, and then a round of the enabled hall. */
  datatype Period = Period(ws: seq<World>, acts: seq<Act>)

  ghost predicate EndsWithRound(p: Period, made: nat) {
    && p.acts != [] && Run(p.ws, p.acts)
    && p.acts[|p.acts| - 1].Round? && p.ws[|p.acts| - 1].settings.enabled
    && MadeIn(p.ws[..|p.acts|], p.acts[..|p.acts| - 1]) <= made
  }

  lemma PeriodBacklog(p: Period, made: nat)
    requires EndsWithRound(p, made)
    ensures |Violating(p.ws[|p.acts|])| <= Left(|Violating(p.ws[0])| + made)
  {
    var n := |p.acts| - 1;
    AtMostMade(p.ws[..n + 1], p.acts[..n]);
    assert Step(p.ws[n], p.ws[n + 1], p.acts[n]);
  }

  /** What a round leaves of `v` violators. */
  function Left(v: int): int {
    if v <= MAX_RECONCILE_CALLS then 0 else v - MAX_RECONCILE_CALLS
  }

  ghost predicate Periods(ps: seq<Period>, made: nat) {
    && (forall i :: 0 <= i < |ps| ==> EndsWithRound(ps[i], made))
    && (forall i :: 0 < i < |ps| ==> ps[i].ws[0] == ps[i - 1].ws[|ps[i - 1].acts|])
  }

  /**
    As long as no more than `made` violators are made between two rounds, whatever else goes on, every round takes
    40 - made off the backlog until none is left after a round.
   */
  lemma {:induction false} EnforcementKeepsUp(ps: seq<Period>, made: nat)
    requires Periods(ps, made) && ps != [] && made <= 40
    ensures var start, end := |Violating(ps[0].ws[0])|, |Violating(ps[|ps| - 1].ws[|ps[|ps| - 1].acts|])|;
            end == 0 || end <= start - (40 - made) * |ps|
  {
    var n := |ps| - 1;
    PeriodBacklog(ps[n], made);
    if n > 0 {
      var before := ps[..n];
      EnforcementKeepsUp(before, made);
      assert ps[n].ws[0] == before[n - 1].ws[|before[n - 1].acts|];
    }
    OneMoreTerm(40 - made, n);
  }

  lemma OneMoreTerm(d: nat, n: nat)
    ensures d * (n + 1) == d * n + d
  {
  }

  // ------------------------------------------------------------------
  // The service's methods take these steps
  // ------------------------------------------------------------------

  ghost function Seen(s: Service, now: int): World
    reads s, s.speakers, s.cameras
  {
    World(s.settings, s.speakers.s, s.cameras.s, s.agentMuted, s.SilencedIds(), s.bans, s.room, s.lease, now)
  }

  lemma SeenIsNow(s: Service, now: int)
    ensures Base(Seen(s, now)) == s.Now(now) && Banned(Seen(s, now)) == s.BannedIds(now)
    ensures Violating(Seen(s, now)) == s.Offenders(now)
  {
    assert Muted(Seen(s, now)) == s.MutedIds(now);
  }

  lemma FewerLeases(w: World, w': World)
    requires w'.speakers.score.Keys <= w.speakers.score.Keys && w'.cameras.score.Keys <= w.cameras.score.Keys
    requires w'.settings == w.settings && Bounded(w)
    ensures Bounded(w')
  {
    SubsetSize(w'.speakers.score.Keys, w.speakers.score.Keys);
    SubsetSize(w'.cameras.score.Keys, w.cameras.score.Keys);
  }

  /** SetMic (visitors only) and SetCamera. */
  method RequestMedia(s: Service, id: Id, kind: SlotKind, on: bool, blocked: bool, answers: bool, now: int) returns (r: MediaResult)
    requires s.Valid(now) && (IsVisitor(id) || (IsAgent(id) && kind.CameraSlot?))
    modifies s`room, s.Slot(kind)
    ensures s.Valid(now)
    ensures Step(old(Seen(s, now)), Seen(s, now),
                 if on then TurnOn(id, kind, blocked, r.MediaSet?) else TurnOff(id, kind, answers))
  {
    SeenIsNow(s, now);
    ghost var w := Seen(s, now);
    r := s.SetMedia(id, kind, on, blocked, answers, now);
    SeenIsNow(s, now);
    ghost var w' := Seen(s, now);
    assert Calm(w, w') && SlotsOf(w', OtherKind(kind)) == SlotsOf(w, OtherKind(kind));
    assert Bounded(w) ==> Bounded(w');
    if on || !w.settings.enabled {
      assert TookOn(w, w', id, kind, blocked, on && r.MediaSet?);
    } else {
      assert GaveUp(w, w', kind, id, answers);
    }
  }

  datatype Action = MuteAction | CameraOffAction | KickAction | MuteAllAction

  /** Who moderates: an agent's identity and whether the agent is an administrator. */
  datatype Operator = Operator(id: Id, admin: bool)

  datatype Moderated = Done | BadParam | TargetForbidden

  const DEFAULT_KICK_MINUTES := 30
  const MAX_KICK_MINUTES := 1440

  /** Whether the target may be moderated: a participant, not oneself, and another agent only by an administrator. */
  predicate MayTarget(op: Operator, id: Id) {
    ValidIdentity(id) && id != op.id && (IsAgent(id) ==> op.admin)
  }

  function KickMinutes(minutes: int): int {
    if minutes == 0 then DEFAULT_KICK_MINUTES else minutes
  }

  function ActOf(action: Action, id: Id, minutes: int, answers: bool): Act {
    match action
    case MuteAction => MuteOne(id, answers)
    case CameraOffAction => CameraOffOne(id, answers)
    case KickAction => KickOne(id, if KickMinutes(minutes) < 0 then 0 else KickMinutes(minutes), answers)
    case MuteAllAction => Revoke(SpeakerSlot, true)
  }

  method PerformMute(s: Service, id: Id, answers: bool, now: int)
    requires s.Valid(now) && ValidIdentity(id)
    modifies s`room, s`agentMuted, s.speakers
    ensures s.Valid(now) && Step(old(Seen(s, now)), Seen(s, now), MuteOne(id, answers))
  {
    SeenIsNow(s, now);
    var affected := Mute(s, id, answers, now);
    SeenIsNow(s, now);
    SubsetSize(s.speakers.s.score.Keys, old(s.speakers.s.score).Keys);
  }

  method PerformCameraOff(s: Service, id: Id, answers: bool, now: int)
    requires s.Valid(now) && ValidIdentity(id)
    modifies s`room, s.cameras
    ensures s.Valid(now) && Step(old(Seen(s, now)), Seen(s, now), CameraOffOne(id, answers))
  {
    SeenIsNow(s, now);
    var affected := CameraOff(s, id, answers, now);
    SeenIsNow(s, now);
    SubsetSize(s.cameras.s.score.Keys, old(s.cameras.s.score).Keys);
  }

  method PerformKick(s: Service, id: Id, minutes: nat, answers: bool, now: int)
    requires s.Valid(now) && ValidIdentity(id) && 1 <= minutes <= MAX_KICK_MINUTES
    modifies s`room, s`bans, s`online, s.speakers, s.cameras
    ensures s.Valid(now) && Step(old(Seen(s, now)), Seen(s, now), KickOne(id, minutes, answers))
    ensures forall t :: s.IsBanned(id, t) <==> t < now + minutes * 60000
  {
    SeenIsNow(s, now);
    ghost var w := Seen(s, now);
    var affected := Kick(s, id, minutes, answers, now);
    SeenIsNow(s, now);
    if Bounded(w) {
      FewerLeases(w, Seen(s, now));
    }
  }

  /** moderateMuteAll, revokeAllMics and revokeAllCameras. */
  method PerformRevoke(s: Service, kind: SlotKind, visitorsOnly: bool, now: int)
    requires s.Valid(now) && (visitorsOnly ==> kind.SpeakerSlot?)
    modifies s`room, s.Slot(kind)
    ensures s.Valid(now) && Step(old(Seen(s, now)), Seen(s, now), Revoke(kind, visitorsOnly))
  {
    SeenIsNow(s, now);
    RevokeAll(s, kind, visitorsOnly, now);
    SeenIsNow(s, now);
  }

  /** Moderate: what is done is the one step, and what is refused changes nothing. */
  method Moderate(s: Service, op: Operator, action: Action, id: Id, minutes: int, answers: bool, now: int) returns (r: Moderated)
    requires s.Valid(now)
    modifies s`room, s`bans, s`online, s`agentMuted, s.speakers, s.cameras
    ensures s.Valid(now)
    ensures r.Done? <==> && (action.MuteAllAction? || MayTarget(op, id))
                         && (action.KickAction? ==> 0 <= minutes <= 1440)
    ensures r.Done? && action.KickAction? ==> forall t :: s.IsBanned(id, t) <==> t < now + (if minutes == 0 then 30 else minutes) * 60000
    ensures r.TargetForbidden? <==> !action.MuteAllAction? && ValidIdentity(id) && !MayTarget(op, id)
    ensures r.Done? ==> Step(old(Seen(s, now)), Seen(s, now), ActOf(action, id, minutes, answers))
    ensures !r.Done? ==> Seen(s, now) == old(Seen(s, now))
  {
    if !action.MuteAllAction? {
      if !ValidIdentity(id) {
        return BadParam;
      }
      if id == op.id {
        return TargetForbidden;
      }
      if IsAgent(id) && !op.admin {
        return TargetForbidden;
      }
    }
    var term := KickMinutes(minutes);
    if action.KickAction? && (term < 1 || term > MAX_KICK_MINUTES) {
      return BadParam;
    }
    match action {
      case MuteAction => PerformMute(s, id, answers, now);
      case CameraOffAction => PerformCameraOff(s, id, answers, now);
      case KickAction => PerformKick(s, id, term, answers, now);
      case MuteAllAction => PerformRevoke(s, SpeakerSlot, true, now);
    }
    return Done;
  }

  method HandleWebhook(s: Service, ev: HallSteps.Event, answers: bool, now: int)
    requires s.Valid(now)
    modifies s`room, s`online, s.speakers, s.cameras
    ensures s.Valid(now) && Step(old(Seen(s, now)), Seen(s, now), Hook(ev, answers))
  {
    SeenIsNow(s, now);
    ghost var w := Seen(s, now);
    ProcessWebhook(s, ev, answers, now);
    SeenIsNow(s, now);
    ghost var w' := Seen(s, now);
    if Bounded(w) {
      FewerLeases(w, w');
    }
    assert TookHook(w, w', ev, answers) by {
      match ev
      case ParticipantJoined(id) => assert id in Banned(w) <==> s.IsBanned(id, now);
      case _ =>
    }
  }

  /** One tick of the reconcile loop, every call succeeding. */
  method Tick(s: Service, now: int) returns (stats: Stats, ghost ids: seq<Id>)
    requires s.Valid(now)
    modifies s`room, s`online, s.speakers, s.cameras
    ensures forall id :: id in ids <==> id in old(s.room) && id != ""
    ensures s.Valid(now) && Step(old(Seen(s, now)), Seen(s, now), Round(ids))
  {
    SeenIsNow(s, now);
    var listed := s.ListParticipants();
    ids := listed;
    stats := s.ReconcileOnce(listed, now);
    SeenIsNow(s, now);
    SubsetSize(s.speakers.s.score.Keys, old(s.speakers.s.score).Keys);
    SubsetSize(s.cameras.s.score.Keys, old(s.cameras.s.score).Keys);
  }
}
