/**
  Hall messages from frame to broadcast: processChat of backend/internal/hall/messages.go over InsertHallMessage of
  backend/internal/store/hall.go. The text filter and the sanitiser are fixed functions; what is looked up per frame
  (switches, bans, limits, blocks, media) comes with the frame.
 */
module ChatPipeline {
  import opened Collections

  datatype Reason =
    | InvalidId | HallClosed | ChatClosed | NotSubscribed | Banned | TooFrequent | TooLong | AgentUnavailable
    | MediaInvalid | EmptyContent | IdConflict

  const MAX_CONTENT_RUNES := 1000

  /** `filter` is the masked text and whether it was filtered. */
  datatype Config = Config(room: string, validId: string -> bool, sanitize: string -> string, filter: string -> (string, bool))

  datatype Media = Media(url: string, kind: string, name: string, size: int)

  datatype Actor = Actor(visitor: bool, ref: string, identity: string, name: string)

  /** `media` is None when the frame's media URL is blank. */
  datatype Frame = Frame(id: string, content: string, media: Option<string>, ts: int)

  /** What the service finds out while it handles one frame. */
  datatype Facts = Facts(enabled: bool, chatEnabled: bool, subscribed: bool, banned: bool, withinLimit: bool, blocked: bool,
                         agentActive: bool, resolved: Option<Media>, now: int)

  datatype Row = Row(id: string, room: string, sender: string, ref: string, identity: string, name: string, content: string,
                     media: Option<Media>, createdAt: int, deletedAt: Option<int>, silenced: bool)

  datatype Prepared = Refuse(id: string, reason: Reason) | Ready(row: Row, filtered: bool)

  /** Everything before the insert. */
  function Prepare(cfg: Config, a: Actor, e: Frame, x: Facts): Prepared {
    if !cfg.validId(e.id) then Refuse("", InvalidId)
    else if !x.enabled then Refuse(e.id, HallClosed)
    else if !x.chatEnabled then Refuse(e.id, ChatClosed)
    else if !x.subscribed then Refuse(e.id, NotSubscribed)
    else if x.banned then Refuse(e.id, Banned)
    else if !x.withinLimit then Refuse(e.id, TooFrequent)
    else
      var text := if e.content != "" then cfg.sanitize(e.content) else e.content;
      var (masked, filtered) := if a.visitor && text != "" then cfg.filter(text) else (text, false);
      var content := if filtered then masked else text;
      var at := if e.ts <= 0 then x.now else e.ts;
      if |text| > MAX_CONTENT_RUNES then Refuse(e.id, TooLong)
      else if !a.visitor && !x.agentActive then Refuse(e.id, AgentUnavailable)
      else if e.media.Some? && x.resolved.None? then Refuse(e.id, MediaInvalid)
      else if e.media.None? && content == "" then Refuse(e.id, EmptyContent)
      else
        var silenced := a.visitor && x.blocked;
        Ready(Row(e.id, cfg.room, if a.visitor then "visitor" else "agent", a.ref, a.identity, a.name, content,
                  if e.media.Some? then x.resolved else None, at, if silenced then Some(at) else None, silenced), filtered)
  }

  /** The same message sent again: room, sender, content and media address agree. */
  predicate SameMessage(r: Row, s: Row) {
    && r.room == s.room && r.sender == s.sender && r.ref == s.ref && r.content == s.content
    && (r.media.Some? <==> s.media.Some?) && (r.media.Some? ==> r.media.value.url == s.media.value.url)
  }

  datatype Inserted = New | Repeated | Conflict

  /** InsertHallMessage: the primary key decides. */
  function InsertResult(rows: map<string, Row>, r: Row): Inserted {
    if r.id !in rows then New else if SameMessage(rows[r.id], r) then Repeated else Conflict
  }

  datatype Out = Out(id: string, content: string, ts: int, media: Option<Media>, sender: string, identity: string, name: string)

  function OutOf(r: Row): Out {
    Out(r.id, r.content, r.createdAt, r.media, r.sender, r.identity, r.name)
  }

  /** What is stored and sent, in order. `Cast` goes to everybody subscribed, the rest to connection `conn`. */
  datatype Event =
    | Stored(id: string, silenced: bool)
    | Ack(conn: nat, id: string, ts: int, masked: Option<string>)
    | Cast(out: Out)
    | Echo(conn: nat, out: Out)
    | Refused(conn: nat, id: string, reason: Reason)

  /** A frame past its insert: the ack is due, then, for a new row, the message itself. */
  datatype Job = Job(conn: nat, row: Row, filtered: bool, fromNew: bool, acked: bool)

  datatype World = World(rows: map<string, Row>, jobs: map<nat, Job>, log: seq<Event>)

  const START := World(map[], map[], [])

  datatype Step =
    | Receive(j: nat, conn: nat, actor: Actor, frame: Frame, facts: Facts)
    | SendAck(j: nat)
    | Publish(j: nat)
    | SoftDelete(room: string, id: string, at: int)

  function Logged(w: World, e: Event): World {
    w.(log := w.log + [e])
  }

  function AckOf(job: Job): Event {
    Ack(job.conn, job.row.id, job.row.createdAt, if job.filtered then Some(job.row.content) else None)
  }

  function Publication(job: Job): Event {
    if job.row.silenced then Echo(job.conn, OutOf(job.row)) else Cast(OutOf(job.row))
  }

  /** Frames of different connections interleave between these steps. */
  function Apply(cfg: Config, w: World, step: Step): World {
    match step
    case Receive(j, conn, a, e, x) =>
      if j in w.jobs then w else
      (match Prepare(cfg, a, e, x)
       case Refuse(id, reason) => Logged(w, Refused(conn, id, reason))
       case Ready(r, filtered) =>
         match InsertResult(w.rows, r)
         case Conflict => Logged(w, Refused(conn, r.id, IdConflict))
         case Repeated => w.(jobs := w.jobs[j := Job(conn, r, filtered, false, false)])
         case New => World(w.rows[r.id := r], w.jobs[j := Job(conn, r, filtered, true, false)], w.log + [Stored(r.id, r.silenced)]))
    case SendAck(j) =>
      if j !in w.jobs || w.jobs[j].acked then w else
      var job := w.jobs[j];
      World(w.rows, AckedJobs(w.jobs, j), w.log + [AckOf(job)])
    case Publish(j) =>
      if j !in w.jobs || !w.jobs[j].acked then w else
      World(w.rows, w.jobs - {j}, w.log + [Publication(w.jobs[j])])
    case SoftDelete(room, id, at) =>
      if id !in w.rows || w.rows[id].room != room || w.rows[id].deletedAt.Some? then w
      else w.(rows := w.rows[id := w.rows[id].(deletedAt := Some(at))])
  }

  // ------------------------------------------------------------------
  // What every step keeps
  // ------------------------------------------------------------------

  predicate Published(e: Event, id: string) {
    (e.Cast? || e.Echo?) && e.out.id == id
  }

  ghost predicate WasPublished(log: seq<Event>, id: string) {
    exists i :: 0 <= i < |log| && Published(log[i], id)
  }

  /** An ack or a publication comes after its row was stored; only what was stored silenced is echoed. */
  ghost predicate EventOk(log: seq<Event>, i: nat)
    requires i < |log|
  {
    match log[i]
    case Ack(_, id, _, _) => Stored(id, true) in log[..i] || Stored(id, false) in log[..i]
    case Cast(out) => Stored(out.id, false) in log[..i] && !WasPublished(log[..i], out.id)
    case Echo(_, out) => Stored(out.id, true) in log[..i] && !WasPublished(log[..i], out.id)
    case Stored(id, _) => Stored(id, true) !in log[..i] && Stored(id, false) !in log[..i]
    case Refused(_, _, _) => true
  }

  ghost predicate LogOk(log: seq<Event>) {
    forall i: nat :: i < |log| ==> EventOk(log, i)
  }

  ghost predicate JobOk(rows: map<string, Row>, log: seq<Event>, job: Job) {
    && job.row.id in rows && SameMessage(rows[job.row.id], job.row)
    && (job.acked ==> job.fromNew)
    && (job.fromNew ==> Stored(job.row.id, job.row.silenced) in log && !WasPublished(log, job.row.id)
                        && OutOf(rows[job.row.id]) == OutOf(job.row))
  }

  /** What has been sent about a row agrees with the row. */
  ghost predicate SentOk(rows: map<string, Row>, e: Event) {
    match e
    case Ack(_, id, _, masked) => id in rows && (masked.Some? ==> masked.value == rows[id].content)
    case Cast(out) => out.id in rows && OutOf(rows[out.id]) == out
    case Echo(_, out) => out.id in rows && OutOf(rows[out.id]) == out
    case _ => true
  }

  ghost predicate AllSentOk(rows: map<string, Row>, log: seq<Event>) {
    forall e :: e in log ==> SentOk(rows, e)
  }

  /** A job that will publish row `id`. */
  ghost predicate Pending(jobs: map<nat, Job>, j: nat, id: string) {
    j in jobs && jobs[j].fromNew && jobs[j].row.id == id
  }

  ghost predicate HasPending(jobs: map<nat, Job>, id: string) {
    exists j :: Pending(jobs, j, id)
  }

  ghost predicate OnePending(jobs: map<nat, Job>) {
    forall j, k :: j in jobs && k in jobs && jobs[j].fromNew && jobs[k].fromNew && jobs[j].row.id == jobs[k].row.id ==> j == k
  }

  ghost predicate RowsOk(rows: map<string, Row>, log: seq<Event>) {
    && (forall id :: id in rows ==> rows[id].id == id)
    && (forall id :: id in rows <==> Stored(id, true) in log || Stored(id, false) in log)
  }

  ghost predicate Handled(w: World, id: string) {
    WasPublished(w.log, id) || HasPending(w.jobs, id)
  }

  ghost predicate Inv(w: World) {
    && LogOk(w.log) && RowsOk(w.rows, w.log) && AllSentOk(w.rows, w.log) && OnePending(w.jobs)
    && (forall j :: j in w.jobs ==> JobOk(w.rows, w.log, w.jobs[j]))
    && (forall id :: id in w.rows ==> Handled(w, id))
  }

  lemma LogSnoc(log: seq<Event>, e: Event)
    requires LogOk(log) && EventOk(log + [e], |log|)
    ensures LogOk(log + [e])
  {
    forall i: nat | i < |log + [e]|
      ensures EventOk(log + [e], i)
    {
      if i < |log| {
        assert EventOk(log, i);
        assert (log + [e])[..i] == log[..i];
      }
    }
  }

  lemma PublishedSnoc(log: seq<Event>, e: Event, id: string)
    ensures WasPublished(log + [e], id) <==> WasPublished(log, id) || Published(e, id)
  {
    if WasPublished(log, id) {
      var i :| 0 <= i < |log| && Published(log[i], id);
      assert Published((log + [e])[i], id);
    }
    if Published(e, id) {
      assert Published((log + [e])[|log|], id);
    }
  }

  /** An event that publishes nothing and stores nothing leaves the rest of the log's meaning alone. */
  lemma QuietSnoc(log: seq<Event>, e: Event)
    requires e.Ack? || e.Refused?
    ensures forall id :: WasPublished(log + [e], id) == WasPublished(log, id)
    ensures forall id, s :: Stored(id, s) in log + [e] <==> Stored(id, s) in log
  {
    forall id
      ensures WasPublished(log + [e], id) == WasPublished(log, id)
    {
      PublishedSnoc(log, e, id);
    }
  }

  lemma SoftDeleteKeeps(w: World, id: string, at: int)
    requires Inv(w) && id in w.rows
    ensures Inv(w.(rows := w.rows[id := w.rows[id].(deletedAt := Some(at))]))
  {
    var w' := w.(rows := w.rows[id := w.rows[id].(deletedAt := Some(at))]);
    forall j | j in w'.jobs
      ensures JobOk(w'.rows, w'.log, w'.jobs[j])
    {
      assert JobOk(w.rows, w.log, w.jobs[j]);
    }
    forall x | x in w'.rows
      ensures Handled(w', x)
    {
      assert Handled(w, x);
    }
  }

  lemma RefusedKeeps(w: World, conn: nat, id: string, reason: Reason)
    requires Inv(w)
    ensures Inv(Logged(w, Refused(conn, id, reason)))
  {
    var e := Refused(conn, id, reason);
    var w' := Logged(w, e);
    LogSnoc(w.log, e);
    QuietSnoc(w.log, e);
    forall j | j in w'.jobs
      ensures JobOk(w'.rows, w'.log, w'.jobs[j])
    {
      assert JobOk(w.rows, w.log, w.jobs[j]);
    }
    forall x | x in w'.rows
      ensures Handled(w', x)
    {
      assert Handled(w, x);
    }
  }

  lemma RepeatedKeeps(w: World, j: nat, job: Job)
    requires Inv(w) && j !in w.jobs && !job.fromNew && !job.acked
    requires job.row.id in w.rows && SameMessage(w.rows[job.row.id], job.row)
    ensures Inv(w.(jobs := w.jobs[j := job]))
  {
    var w' := w.(jobs := w.jobs[j := job]);
    forall k | k in w'.jobs
      ensures JobOk(w'.rows, w'.log, w'.jobs[k])
    {
      assert k != j ==> JobOk(w.rows, w.log, w.jobs[k]);
    }
    forall x | x in w'.rows
      ensures Handled(w', x)
    {
      assert Handled(w, x);
      PendingGrows(w.jobs, w'.jobs, x);
    }
  }

  lemma PendingGrows(jobs: map<nat, Job>, jobs': map<nat, Job>, id: string)
    requires forall k :: k in jobs && jobs[k].fromNew && jobs[k].row.id == id ==> Pending(jobs', k, id)
    ensures HasPending(jobs, id) ==> HasPending(jobs', id)
  {
    if HasPending(jobs, id) {
      var k :| Pending(jobs, k, id);
      assert Pending(jobs', k, id);
    }
  }

  /** What is not stored has not been published and no job will publish it. */
  lemma UnstoredIsUnpublished(w: World, id: string)
    requires Inv(w) && id !in w.rows
    ensures !WasPublished(w.log, id) && !HasPending(w.jobs, id)
  {
    forall i: nat | i < |w.log|
      ensures !Published(w.log[i], id)
    {
      assert EventOk(w.log, i);
      assert Stored(id, true) !in w.log[..i] && Stored(id, false) !in w.log[..i];
    }
    forall j | j in w.jobs
      ensures !Pending(w.jobs, j, id)
    {
      assert JobOk(w.rows, w.log, w.jobs[j]);
    }
  }

  lemma NewKeeps(w: World, j: nat, job: Job)
    requires Inv(w) && j !in w.jobs && job.fromNew && !job.acked && job.row.id !in w.rows
    ensures var r := job.row;
            Inv(World(w.rows[r.id := r], w.jobs[j := job], w.log + [Stored(r.id, r.silenced)]))
  {
    var r := job.row;
    var e := Stored(r.id, r.silenced);
    var w' := World(w.rows[r.id := r], w.jobs[j := job], w.log + [e]);
    UnstoredIsUnpublished(w, r.id);
    NewLogged(w, r);
    forall k | k in w'.jobs
      ensures JobOk(w'.rows, w'.log, w'.jobs[k])
    {
      assert k != j ==> JobOk(w.rows, w.log, w.jobs[k]);
    }
    forall k | k in w.jobs && w.jobs[k].fromNew
      ensures w.jobs[k].row.id != r.id
    {
      assert JobOk(w.rows, w.log, w.jobs[k]);
    }
    forall x | x in w'.rows
      ensures Handled(w', x)
    {
      if x == r.id {
        assert Pending(w'.jobs, j, x);
      } else {
        assert Handled(w, x);
        PendingGrows(w.jobs, w'.jobs, x);
      }
    }
  }

  lemma NewLogged(w: World, r: Row)
    requires Inv(w) && r.id !in w.rows
    ensures var log := w.log + [Stored(r.id, r.silenced)];
            && LogOk(log) && RowsOk(w.rows[r.id := r], log)
            && (forall id :: WasPublished(log, id) == WasPublished(w.log, id))
            && (forall id, s :: Stored(id, s) in w.log ==> Stored(id, s) in log)
  {
    var e := Stored(r.id, r.silenced);
    assert (w.log + [e])[..|w.log|] == w.log;
    LogSnoc(w.log, e);
    forall id
      ensures WasPublished(w.log + [e], id) == WasPublished(w.log, id)
    {
      PublishedSnoc(w.log, e, id);
    }
  }

  lemma AckLogged(w: World, j: nat)
    requires Inv(w) && j in w.jobs
    ensures var log := w.log + [AckOf(w.jobs[j])];
            && LogOk(log)
            && (forall id :: WasPublished(log, id) == WasPublished(w.log, id))
            && (forall id, s :: Stored(id, s) in log <==> Stored(id, s) in w.log)
  {
    var e := AckOf(w.jobs[j]);
    assert JobOk(w.rows, w.log, w.jobs[j]);
    assert (w.log + [e])[..|w.log|] == w.log;
    LogSnoc(w.log, e);
    QuietSnoc(w.log, e);
  }

  /** The jobs after `j`'s ack: one that is to publish goes on, another is finished. */
  function AckedJobs(jobs: map<nat, Job>, j: nat): map<nat, Job>
    requires j in jobs
  {
    if jobs[j].fromNew then jobs[j := jobs[j].(acked := true)] else jobs - {j}
  }

  lemma AckKeepsJobs(w: World, j: nat, log: seq<Event>)
    requires Inv(w) && j in w.jobs
    requires forall id :: WasPublished(log, id) == WasPublished(w.log, id)
    requires forall id, s :: Stored(id, s) in log <==> Stored(id, s) in w.log
    ensures OnePending(AckedJobs(w.jobs, j))
    ensures forall k :: k in AckedJobs(w.jobs, j) ==> JobOk(w.rows, log, AckedJobs(w.jobs, j)[k])
  {
    forall k | k in AckedJobs(w.jobs, j)
      ensures JobOk(w.rows, log, AckedJobs(w.jobs, j)[k])
    {
      assert JobOk(w.rows, w.log, w.jobs[k]);
    }
  }

  lemma AckKeepsHandled(w: World, j: nat, log: seq<Event>)
    requires Inv(w) && j in w.jobs && forall id :: WasPublished(log, id) == WasPublished(w.log, id)
    ensures forall id :: id in w.rows ==> Handled(World(w.rows, AckedJobs(w.jobs, j), log), id)
  {
    forall x | x in w.rows
      ensures Handled(World(w.rows, AckedJobs(w.jobs, j), log), x)
    {
      assert Handled(w, x);
      PendingGrows(w.jobs, AckedJobs(w.jobs, j), x);
    }
  }

  lemma AckKeepsSent(w: World, j: nat)
    requires Inv(w) && j in w.jobs
    ensures AllSentOk(w.rows, w.log + [AckOf(w.jobs[j])])
  {
    assert JobOk(w.rows, w.log, w.jobs[j]);
  }

  lemma AckKeeps(w: World, j: nat)
    requires Inv(w) && j in w.jobs
    ensures Inv(World(w.rows, AckedJobs(w.jobs, j), w.log + [AckOf(w.jobs[j])]))
  {
    var log := w.log + [AckOf(w.jobs[j])];
    AckLogged(w, j);
    AckKeepsJobs(w, j, log);
    AckKeepsHandled(w, j, log);
    AckKeepsSent(w, j);
  }

  lemma PublishKeeps(w: World, j: nat)
    requires Inv(w) && j in w.jobs && w.jobs[j].acked
    ensures Inv(World(w.rows, w.jobs - {j}, w.log + [Publication(w.jobs[j])]))
  {
    var job := w.jobs[j];
    var e := Publication(job);
    var w' := World(w.rows, w.jobs - {j}, w.log + [e]);
    assert JobOk(w.rows, w.log, job);
    assert (w.log + [e])[..|w.log|] == w.log;
    LogSnoc(w.log, e);
    forall x
      ensures WasPublished(w'.log, x) <==> WasPublished(w.log, x) || x == job.row.id
    {
      PublishedSnoc(w.log, e, x);
    }
    forall k | k in w'.jobs
      ensures JobOk(w'.rows, w'.log, w'.jobs[k])
    {
      assert JobOk(w.rows, w.log, w.jobs[k]);
    }
    forall x | x in w'.rows
      ensures Handled(w', x)
    {
      assert Handled(w, x);
      if x != job.row.id {
        PendingGrows(w.jobs, w'.jobs, x);
      }
    }
  }

  lemma StepKeepsInv(cfg: Config, w: World, step: Step)
    requires Inv(w)
    ensures Inv(Apply(cfg, w, step))
  {
    match step
    case Receive(j, conn, a, e, x) =>
      if j !in w.jobs {
        match Prepare(cfg, a, e, x)
        case Refuse(id, reason) => RefusedKeeps(w, conn, id, reason);
        case Ready(r, filtered) =>
          match InsertResult(w.rows, r)
          case Conflict => RefusedKeeps(w, conn, r.id, IdConflict);
          case Repeated => RepeatedKeeps(w, j, Job(conn, r, filtered, false, false));
          case New => NewKeeps(w, j, Job(conn, r, filtered, true, false));
      }
    case SendAck(j) =>
      if j in w.jobs && !w.jobs[j].acked {
        AckKeeps(w, j);
      }
    case Publish(j) =>
      if j in w.jobs && w.jobs[j].acked {
        PublishKeeps(w, j);
      }
    case SoftDelete(room, id, at) =>
      if id in w.rows && w.rows[id].room == room && w.rows[id].deletedAt.None? {
        SoftDeleteKeeps(w, id, at);
      }
  }

  // ------------------------------------------------------------------
  // Whole runs
  // ------------------------------------------------------------------

  ghost function Run(cfg: Config, w: World, steps: seq<Step>): World
    decreases |steps|
  {
    if steps == [] then w else Run(cfg, Apply(cfg, w, steps[0]), steps[1..])
  }

  /** Rows stay, and of a stored row only the deletion time ever changes. */
  ghost predicate Frozen(w: World, w': World) {
    forall id :: id in w.rows ==> id in w'.rows && w'.rows[id] == w.rows[id].(deletedAt := w'.rows[id].deletedAt)
  }

  lemma StepFreezes(cfg: Config, w: World, step: Step)
    requires RowsOk(w.rows, w.log)
    ensures Frozen(w, Apply(cfg, w, step)) && w.log <= Apply(cfg, w, step).log
  {
  }

  lemma {:induction false} RunKeeps(cfg: Config, w: World, steps: seq<Step>)
    requires Inv(w)
    ensures Inv(Run(cfg, w, steps)) && Frozen(w, Run(cfg, w, steps)) && w.log <= Run(cfg, w, steps).log
    decreases |steps|
  {
    if steps != [] {
      var w' := Apply(cfg, w, steps[0]);
      StepKeepsInv(cfg, w, steps[0]);
      StepFreezes(cfg, w, steps[0]);
      RunKeeps(cfg, w', steps[1..]);
      FrozenTransitive(w, w', Run(cfg, w', steps[1..]));
    }
  }

  lemma FrozenTransitive(w: World, w': World, w'': World)
    requires Frozen(w, w') && Frozen(w', w'') && w.log <= w'.log && w'.log <= w''.log
    ensures Frozen(w, w'') && w.log <= w''.log
  {
  }

  /** An acked message was stored before its ack, and the ack's masked text is the stored one. */
  lemma AckFollowsRow(cfg: Config, steps: seq<Step>, i: nat)
    requires i < |Run(cfg, START, steps).log| && Run(cfg, START, steps).log[i].Ack?
    ensures var w := Run(cfg, START, steps);
            var a := w.log[i];
            && (exists k: nat :: k < i && w.log[k].Stored? && w.log[k].id == a.id)
            && a.id in w.rows && (a.masked.Some? ==> a.masked.value == w.rows[a.id].content)
  {
    RunKeeps(cfg, START, steps);
    var w := Run(cfg, START, steps);
    assert EventOk(w.log, i);
    assert w.log[i] in w.log;
    var k :| 0 <= k < i && w.log[..i][k].Stored? && w.log[..i][k].id == w.log[i].id;
    assert w.log[k] == w.log[..i][k];
  }

  /** What is sent of a message is what its row says. */
  ghost predicate Shows(out: Out, r: Row) {
    && out.id == r.id && out.content == r.content && out.ts == r.createdAt && out.media == r.media
    && out.sender == r.sender && out.identity == r.identity && out.name == r.name
  }

  /** A message is broadcast at most once, as it is stored, only after it was stored, and never if it was silenced. */
  lemma CastOnceAfterRow(cfg: Config, steps: seq<Step>, i: nat)
    requires i < |Run(cfg, START, steps).log| && Run(cfg, START, steps).log[i].Cast?
    ensures var w := Run(cfg, START, steps);
            var out := w.log[i].out;
            && (forall k :: 0 <= k < |w.log| && Published(w.log[k], out.id) ==> k == i)
            && Stored(out.id, false) in w.log[..i] && Stored(out.id, true) !in w.log
            && out.id in w.rows && Shows(out, w.rows[out.id])
  {
    RunKeeps(cfg, START, steps);
    var w := Run(cfg, START, steps);
    var out := w.log[i].out;
    assert EventOk(w.log, i) && w.log[i] in w.log;
    assert SentOk(w.rows, w.log[i]);
    forall k: nat | k < |w.log| && Published(w.log[k], out.id)
      ensures k == i
    {
      PublishedTwice(w.log, i, k, out.id);
    }
    StoredOneWay(w.log, out.id);
    var s :| 0 <= s < i && w.log[..i][s] == Stored(out.id, false);
    assert w.log[s] == Stored(out.id, false);
  }

  lemma PublishedEarlier(log: seq<Event>, i: nat, k: nat, id: string)
    ensures i < k < |log| && Published(log[i], id) ==> WasPublished(log[..k], id)
  {
    if i < k < |log| && Published(log[i], id) {
      assert Published(log[..k][i], id);
    }
  }

  lemma StoredEarlier(log: seq<Event>, i: nat, k: nat)
    ensures i < k < |log| ==> log[i] in log[..k]
  {
    if i < k < |log| {
      assert log[..k][i] == log[i];
    }
  }

  lemma PublishedTwice(log: seq<Event>, i: nat, k: nat, id: string)
    requires LogOk(log) && i < |log| && k < |log| && Published(log[i], id) && Published(log[k], id)
    ensures i == k
  {
    PublishedEarlier(log, i, k, id);
    PublishedEarlier(log, k, i, id);
    assert EventOk(log, i) && EventOk(log, k);
  }

  lemma StoredUnique(log: seq<Event>, i: nat, k: nat)
    requires LogOk(log) && i < |log| && k < |log| && log[i].Stored? && log[k].Stored? && log[i].id == log[k].id
    ensures i == k
  {
    StoredEarlier(log, i, k);
    StoredEarlier(log, k, i);
    assert EventOk(log, i) && EventOk(log, k);
  }

  lemma StoredOneWay(log: seq<Event>, id: string)
    requires LogOk(log)
    ensures Stored(id, true) !in log || Stored(id, false) !in log
  {
    if Stored(id, true) in log && Stored(id, false) in log {
      var i: nat :| i < |log| && log[i] == Stored(id, true);
      var k: nat :| k < |log| && log[k] == Stored(id, false);
      StoredUnique(log, i, k);
    }
  }

  /** When nothing is left to send, every stored message was broadcast or, if silenced, echoed to its sender. */
  lemma DrainedMeansSent(cfg: Config, steps: seq<Step>, id: string)
    requires Run(cfg, START, steps).jobs == map[] && id in Run(cfg, START, steps).rows
    ensures var w := Run(cfg, START, steps);
            exists i :: 0 <= i < |w.log| && Published(w.log[i], id) && (w.log[i].Cast? <==> Stored(id, false) in w.log)
                        && Shows(w.log[i].out, w.rows[id])
  {
    RunKeeps(cfg, START, steps);
    var w := Run(cfg, START, steps);
    assert Handled(w, id);
    var i: nat :| i < |w.log| && Published(w.log[i], id);
    assert EventOk(w.log, i) && w.log[i] in w.log && SentOk(w.rows, w.log[i]);
    StoredOneWay(w.log, id);
    var silenced := w.log[i].Echo?;
    var s :| 0 <= s < i && w.log[..i][s] == Stored(id, silenced);
    assert w.log[s] == Stored(id, silenced);
  }

  /** What is stored and sent does not depend on the log; a run only adds to it. */
  lemma {:induction false} RunIgnoresLog(cfg: Config, w: World, log: seq<Event>, steps: seq<Step>)
    ensures w.log <= Run(cfg, w, steps).log
    ensures Run(cfg, w.(log := log), steps) == Run(cfg, w, steps).(log := log + Run(cfg, w, steps).log[|w.log|..])
    decreases |steps|
  {
    if steps == [] {
      assert w.log[|w.log|..] == [] && log + [] == log;
    } else {
      var w1 := Apply(cfg, w, steps[0]);
      var more := w1.log[|w.log|..];
      StepIgnoresLog(cfg, w, log, steps[0]);
      RunIgnoresLog(cfg, w1, log + more, steps[1..]);
      assert log + more + Run(cfg, w1, steps[1..]).log[|w1.log|..] == log + Run(cfg, w1, steps[1..]).log[|w.log|..];
    }
  }

  lemma StepIgnoresLog(cfg: Config, w: World, log: seq<Event>, step: Step)
    ensures w.log <= Apply(cfg, w, step).log
    ensures Apply(cfg, w.(log := log), step) == Apply(cfg, w, step).(log := log + Apply(cfg, w, step).log[|w.log|..])
  {
    assert w.log[|w.log|..] == [] && log + [] == log;
  }

  /**
    Reusing an id for another message leaves no trace but one refusal: whatever follows, everything is stored and sent
    as if that frame had never come.
   */
  lemma ConflictChangesNothing(cfg: Config, w: World, j: nat, conn: nat, a: Actor, e: Frame, x: Facts, steps: seq<Step>)
    requires j !in w.jobs && Prepare(cfg, a, e, x).Ready?
    requires e.id in w.rows && !SameMessage(w.rows[e.id], Prepare(cfg, a, e, x).row)
    ensures var without, with := Run(cfg, w, steps), Run(cfg, Apply(cfg, w, Receive(j, conn, a, e, x)), steps);
            && w.log <= without.log && with.rows == without.rows && with.jobs == without.jobs
            && with.log == w.log + [Refused(conn, e.id, IdConflict)] + without.log[|w.log|..]
  {
    assert Apply(cfg, w, Receive(j, conn, a, e, x)) == w.(log := w.log + [Refused(conn, e.id, IdConflict)]);
    RunIgnoresLog(cfg, w, w.log + [Refused(conn, e.id, IdConflict)], steps);
  }

  /** The text of a frame before the filter. */
  function Cleaned(cfg: Config, e: Frame): string {
    if e.content != "" then cfg.sanitize(e.content) else ""
  }

  /**
    A frame gets past the checks exactly if none objects. What it then stores: never text of a visitor that the filter
    objects to, only media that were found, something at any rate, and hidden from others exactly if the sender is a
    blocked visitor.
   */
  lemma PreparedSound(cfg: Config, a: Actor, e: Frame, x: Facts)
    ensures var p, text := Prepare(cfg, a, e, x), Cleaned(cfg, e);
            var caught := a.visitor && text != "" && cfg.filter(text).1;
            && (p.Ready? <==> && cfg.validId(e.id) && x.enabled && x.chatEnabled && x.subscribed && !x.banned && x.withinLimit
                              && |text| <= 1000 && (a.visitor || x.agentActive)
                              && (if e.media.Some? then x.resolved.Some? else (if caught then cfg.filter(text).0 else text) != ""))
            && (p.Ready? ==>
                  && p.row.id == e.id && p.row.ref == a.ref
                  && (p.filtered <==> caught) && p.row.content == (if caught then cfg.filter(text).0 else text)
                  && (p.row.content != "" || p.row.media.Some?)
                  && (p.row.media.Some? <==> e.media.Some?) && (p.row.media.Some? ==> p.row.media == x.resolved)
                  && (p.row.silenced <==> a.visitor && x.blocked) && (p.row.silenced <==> p.row.deletedAt.Some?))
            && (p.Refuse? ==> p.reason != IdConflict && p.id == if p.reason == InvalidId then "" else e.id)
  {
  }

  /** What a frame says depends on nothing that was looked up but the media. */
  lemma SameFrameSameMessage(cfg: Config, a: Actor, e: Frame, x: Facts, y: Facts)
    requires Prepare(cfg, a, e, x).Ready? && Prepare(cfg, a, e, y).Ready? && x.resolved == y.resolved
    ensures SameMessage(Prepare(cfg, a, e, x).row, Prepare(cfg, a, e, y).row)
    ensures Prepare(cfg, a, e, x).row.id == Prepare(cfg, a, e, y).row.id == e.id
  {
  }

  lemma ReceivedIsStored(cfg: Config, w: World, j: nat, conn: nat, a: Actor, e: Frame, x: Facts)
    requires RowsOk(w.rows, w.log) && j !in w.jobs && Prepare(cfg, a, e, x).Ready?
    requires InsertResult(w.rows, Prepare(cfg, a, e, x).row) != Conflict
    ensures var w' := Apply(cfg, w, Receive(j, conn, a, e, x));
            e.id in w'.rows && SameMessage(w'.rows[e.id], Prepare(cfg, a, e, x).row)
  {
  }

  /** Once a frame's message is stored, the same frame from the same sender is never taken for a conflict again. */
  lemma RetryIsNoConflict(cfg: Config, w: World, steps: seq<Step>, j: nat, conn: nat, a: Actor, e: Frame, x: Facts, y: Facts)
    requires Inv(w) && j !in w.jobs && Prepare(cfg, a, e, x).Ready? && Prepare(cfg, a, e, y).Ready?
    requires InsertResult(w.rows, Prepare(cfg, a, e, x).row) != Conflict && x.resolved == y.resolved
    ensures var later := Run(cfg, Apply(cfg, w, Receive(j, conn, a, e, x)), steps);
            InsertResult(later.rows, Prepare(cfg, a, e, y).row) == Repeated
  {
    var w' := Apply(cfg, w, Receive(j, conn, a, e, x));
    StepKeepsInv(cfg, w, Receive(j, conn, a, e, x));
    RunKeeps(cfg, w', steps);
    ReceivedIsStored(cfg, w, j, conn, a, e, x);
    SameFrameSameMessage(cfg, a, e, x, y);
    StillSame(w'.rows[e.id], Run(cfg, w', steps).rows[e.id], Prepare(cfg, a, e, x).row, Prepare(cfg, a, e, y).row);
  }

  lemma StillSame(r: Row, r': Row, p: Row, q: Row)
    requires r' == r.(deletedAt := r'.deletedAt) && SameMessage(r, p) && SameMessage(p, q)
    ensures SameMessage(r', q)
  {
  }

  // ------------------------------------------------------------------
  // The service
  // ------------------------------------------------------------------

  /** One frame from receipt to broadcast without interruption. */
  function Processed(cfg: Config, w: World, conn: nat, a: Actor, e: Frame, x: Facts): World {
    Apply(cfg, Apply(cfg, Apply(cfg, w, Receive(0, conn, a, e, x)), SendAck(0)), Publish(0))
  }

  lemma ProcessedKeeps(cfg: Config, w: World, conn: nat, a: Actor, e: Frame, x: Facts)
    requires Inv(w)
    ensures Inv(Processed(cfg, w, conn, a, e, x))
  {
    var w1 := Apply(cfg, w, Receive(0, conn, a, e, x));
    StepKeepsInv(cfg, w, Receive(0, conn, a, e, x));
    StepKeepsInv(cfg, w1, SendAck(0));
    StepKeepsInv(cfg, Apply(cfg, w1, SendAck(0)), Publish(0));
  }

  /** A message past its checks, without interruption. */
  function Delivered(w: World, conn: nat, r: Row, filtered: bool): World {
    var job := Job(conn, r, filtered, true, true);
    match InsertResult(w.rows, r)
    case Conflict => Logged(w, Refused(conn, r.id, IdConflict))
    case Repeated => Logged(w, AckOf(job))
    case New => World(w.rows[r.id := r], w.jobs, w.log + [Stored(r.id, r.silenced)] + [AckOf(job)] + [Publication(job)])
  }

  lemma ProcessedIsDelivered(cfg: Config, w: World, conn: nat, a: Actor, e: Frame, x: Facts)
    requires w.jobs == map[]
    ensures Processed(cfg, w, conn, a, e, x) == match Prepare(cfg, a, e, x)
                                                case Refuse(id, reason) => Logged(w, Refused(conn, id, reason))
                                                case Ready(r, filtered) => Delivered(w, conn, r, filtered)
  {
    match Prepare(cfg, a, e, x)
    case Refuse(_, _) =>
    case Ready(r, filtered) => DeliveredSteps(w, r, Job(conn, r, filtered, true, false));
  }

  lemma DeliveredSteps(w: World, r: Row, job: Job)
    requires w.jobs == map[]
    ensures w.jobs[0 := job][0 := job.(acked := true)] - {0} == map[]
    ensures w.jobs[0 := job] - {0} == map[]
  {
  }

  ghost predicate Acked(sent: seq<Event>, conn: nat, id: string) {
    exists i :: 0 <= i < |sent| && sent[i].Ack? && sent[i].conn == conn && sent[i].id == id
  }

  ghost predicate WasRefused(sent: seq<Event>, conn: nat) {
    exists i :: 0 <= i < |sent| && sent[i].Refused? && sent[i].conn == conn
  }

  ghost predicate WasCast(sent: seq<Event>, id: string) {
    exists i :: 0 <= i < |sent| && sent[i].Cast? && sent[i].out.id == id
  }

  /**
    What the sender and the others see of a frame: it is acked exactly if its message is stored afterwards, refused
    exactly if it is not acked, and broadcast exactly if it is a new message of a sender who is not silenced.
   */
  lemma FrameAnswered(cfg: Config, w: World, conn: nat, a: Actor, e: Frame, x: Facts, sent: seq<Event>)
    requires w.jobs == map[] && Processed(cfg, w, conn, a, e, x).log == w.log + sent
    ensures var w', p := Processed(cfg, w, conn, a, e, x), Prepare(cfg, a, e, x);
            && (Acked(sent, conn, e.id) <==> p.Ready? && e.id in w'.rows && SameMessage(w'.rows[e.id], p.row))
            && (WasRefused(sent, conn) <==> !Acked(sent, conn, e.id))
            && (WasCast(sent, e.id) <==> p.Ready? && e.id !in w.rows && !p.row.silenced)
  {
    ProcessedIsDelivered(cfg, w, conn, a, e, x);
    match Prepare(cfg, a, e, x)
    case Refuse(id, reason) =>
      SameEnd(w.log, sent, [Refused(conn, id, reason)]);
      assert sent[0].Refused?;
    case Ready(r, filtered) => DeliveredAnswers(w, conn, r, filtered, sent);
  }

  lemma SameEnd(log: seq<Event>, a: seq<Event>, b: seq<Event>)
    requires log + a == log + b
    ensures a == b
  {
    assert a == (log + a)[|log|..] && b == (log + b)[|log|..];
  }

  lemma DeliveredAnswers(w: World, conn: nat, r: Row, filtered: bool, sent: seq<Event>)
    requires Delivered(w, conn, r, filtered).log == w.log + sent
    ensures var w' := Delivered(w, conn, r, filtered);
            && (Acked(sent, conn, r.id) <==> r.id in w'.rows && SameMessage(w'.rows[r.id], r))
            && (WasRefused(sent, conn) <==> !Acked(sent, conn, r.id))
            && (WasCast(sent, r.id) <==> r.id !in w.rows && !r.silenced)
  {
    var job := Job(conn, r, filtered, true, true);
    match InsertResult(w.rows, r)
    case Conflict =>
      SameEnd(w.log, sent, [Refused(conn, r.id, IdConflict)]);
      assert sent[0].Refused?;
    case Repeated =>
      SameEnd(w.log, sent, [AckOf(job)]);
      assert sent[0].Ack?;
    case New =>
      SameEnd(w.log, sent, [Stored(r.id, r.silenced), AckOf(job), Publication(job)]);
      assert sent[1].Ack?;
      assert !r.silenced ==> sent[2].Cast?;
  }

  class HallChat {
    const cfg: Config
    var rows: map<string, Row>
    var log: seq<Event>

    ghost function Now(): World
      reads this
    {
      World(rows, map[], log)
    }

    constructor (cfg: Config)
      ensures Inv(Now()) && Now() == START && this.cfg == cfg
    {
      this.cfg := cfg;
      rows, log := map[], [];
    }

    method Refuse(conn: nat, id: string, reason: Reason)
      modifies this`log
      ensures log == old(log) + [Refused(conn, id, reason)]
    {
      log := log + [Refused(conn, id, reason)];
    }

    /** InsertHallMessage. */
    method InsertHallMessage(m: Row) returns (r: Inserted)
      modifies this`rows, this`log
      ensures r == InsertResult(old(rows), m)
      ensures rows == (if r == New then old(rows)[m.id := m] else old(rows))
      ensures log == (if r == New then old(log) + [Stored(m.id, m.silenced)] else old(log))
    {
      if m.id !in rows {
        rows := rows[m.id := m];
        log := log + [Stored(m.id, m.silenced)];
        return New;
      }
      var existing := rows[m.id];
      if existing.room == m.room && existing.sender == m.sender && existing.ref == m.ref && existing.content == m.content
         && existing.media.Some? == m.media.Some? && (existing.media.Some? ==> existing.media.value.url == m.media.value.url)
      {
        return Repeated;
      }
      return Conflict;
    }

    /** SoftDeleteHallMessage: only a row of that room that is not deleted yet gets a deletion time. */
    method SoftDeleteHallMessage(room: string, id: string, at: int) returns (found: bool, changed: bool)
      requires Inv(Now())
      modifies this`rows
      ensures Inv(Now()) && Now() == Apply(cfg, old(Now()), SoftDelete(room, id, at))
      ensures found <==> id in old(rows) && old(rows)[id].room == room
      ensures changed <==> found && old(rows)[id].deletedAt == None
      ensures rows == if changed then old(rows)[id := old(rows)[id].(deletedAt := Some(at))] else old(rows)
    {
      StepKeepsInv(cfg, Now(), SoftDelete(room, id, at));
      found, changed := id in rows && rows[id].room == room, false;
      if found && rows[id].deletedAt.None? {
        rows := rows[id := rows[id].(deletedAt := Some(at))];
        changed := true;
      }
    }

    /** processChat. */
    method ProcessChat(conn: nat, a: Actor, e: Frame, x: Facts)
      requires Inv(Now())
      modifies this
      ensures Inv(Now()) && Now() == Processed(cfg, old(Now()), conn, a, e, x)
    {
      ProcessedIsDelivered(cfg, Now(), conn, a, e, x);
      ProcessedKeeps(cfg, Now(), conn, a, e, x);
      var p := Checked(a, e, x);
      if p.Refuse? {
        Refuse(conn, p.id, p.reason);
        return;
      }
      Deliver(conn, p.row, p.filtered);
    }

    method Deliver(conn: nat, msg: Row, filtered: bool)
      modifies this`rows, this`log
      ensures Now() == Delivered(old(Now()), conn, msg, filtered)
    {
      var inserted := InsertHallMessage(msg);
      if inserted == Conflict {
        Refuse(conn, msg.id, IdConflict);
        return;
      }
      log := log + [Ack(conn, msg.id, msg.createdAt, if filtered then Some(msg.content) else None)];
      if inserted != New {
        return;
      }
      if msg.silenced {
        log := log + [Echo(conn, OutOf(msg))];
      } else {
        log := log + [Cast(OutOf(msg))];
      }
    }

    /** processChat up to the insert. */
    method Checked(a: Actor, e: Frame, x: Facts) returns (p: Prepared)
      ensures p == Prepare(cfg, a, e, x)
    {
      if !cfg.validId(e.id) {
        return Prepared.Refuse("", InvalidId);
      }
      if !x.enabled {
        return Prepared.Refuse(e.id, HallClosed);
      } else if !x.chatEnabled {
        return Prepared.Refuse(e.id, ChatClosed);
      }
      if !x.subscribed {
        return Prepared.Refuse(e.id, NotSubscribed);
      }
      if x.banned {
        return Prepared.Refuse(e.id, Banned);
      }
      if !x.withinLimit {
        return Prepared.Refuse(e.id, TooFrequent);
      }
      var content := e.content;
      if content != "" {
        content := cfg.sanitize(content);
      }
      if |content| > MAX_CONTENT_RUNES {
        return Prepared.Refuse(e.id, TooLong);
      }
      var createdAt := e.ts;
      if e.ts <= 0 {
        createdAt := x.now;
      }
      var silenced := false;
      if a.visitor {
        silenced := x.blocked;
      } else if !x.agentActive {
        return Prepared.Refuse(e.id, AgentUnavailable);
      }
      var filtered := false;
      if a.visitor && content != "" {
        var res := cfg.filter(content);
        filtered := res.1;
        if filtered {
          content := res.0;
        }
      }
      var media := None;
      if e.media.Some? {
        if x.resolved.None? {
          return Prepared.Refuse(e.id, MediaInvalid);
        }
        media := x.resolved;
      } else if content == "" {
        return Prepared.Refuse(e.id, EmptyContent);
      }
      var deletedAt := None;
      if silenced {
        deletedAt := Some(createdAt);
      }
      p := Ready(Row(e.id, cfg.room, if a.visitor then "visitor" else "agent", a.ref, a.identity, a.name, content, media,
                     createdAt, deletedAt, silenced), filtered);
    }
  }
}
