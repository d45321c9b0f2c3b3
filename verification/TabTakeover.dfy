/**
  Which tab of a browser is in the hall (widget/public/hall.js): a tab that joins announces itself on a broadcast
  channel and the others leave. Tabs are named by the place of their random id in string order; a channel delivers
  each announcement to every other open tab, in any order and after any delay.
 */
module TabTakeover {
  datatype Phase = Idle | Joining | Connecting | Live | Reconnecting | Degraded | Failed | Full | Kicked | Elsewhere | Closed

  predicate Active(p: Phase) {
    !(p.Idle? || p.Elsewhere? || p.Closed?)
  }

  datatype Announcement = Announcement(at: int, tab: nat)

  /** How a page came to be active: by a join, by the click on "listen here", or by being told of a kick; or not at all. */
  datatype Entry = Out | ByAnnouncement | ByClick | ByKick

  /** One page. `heard` is the latest announcement the page has received, or that was made before it opened. */
  datatype Tab = Tab(phase: Phase, entry: Entry, announcedAt: int, heard: Announcement)

  /** Older than every announcement. */
  const NOTHING := Announcement(0, 0)

  datatype Delivery = Delivery(dest: nat, m: Announcement)

  /** `log` is every announcement made so far. */
  datatype State = State(tabs: map<nat, Tab>, inFlight: multiset<Delivery>, log: set<Announcement>)

  const START := State(map[], multiset{}, {})

  datatype Step =
    | Open(t: nat)
    | Join(t: nat, at: int)
    | ClickListen(t: nat)
    | Move(t: nat, phase: Phase)
    | Kick(t: nat)
    | Deliver(d: Delivery)
    | Shut(t: nat)

  /** The announcement (at, tab) is later than m: by time, then by tab id. */
  predicate Later(at: int, tab: nat, m: Announcement) {
    at > m.at || (at == m.at && tab > m.tab)
  }

  /** The channel handler. */
  function Receive(tab: Tab, id: nat, m: Announcement): Tab {
    var told := tab.(heard := if Later(m.at, m.tab, tab.heard) then m else tab.heard);
    if m.tab == id || Later(tab.announcedAt, id, m) || !Active(tab.phase) then told
    else told.(phase := Elsewhere, entry := Out)
  }

  /** join from its guard to its first await. */
  function Announced(tab: Tab, at: int): Tab {
    tab.(phase := if tab.phase.Degraded? || tab.phase.Reconnecting? then tab.phase else Joining, entry := ByAnnouncement,
         announcedAt := at)
  }

  /** The visitor was kicked: every page but one that gave way shows it, whatever it was doing, and announces nothing. */
  function ToldOfKick(tab: Tab): Tab {
    if tab.phase.Elsewhere? then tab
    else tab.(phase := Kicked, entry := if tab.entry.ByAnnouncement? then ByAnnouncement else ByKick)
  }

  /** The announcement goes to every other open tab. */
  ghost function Broadcast(tabs: map<nat, Tab>, m: Announcement): multiset<Delivery> {
    multiset(set t | t in tabs && t != m.tab :: Delivery(t, m))
  }

  ghost predicate Enabled(s: State, step: Step) {
    match step
    case Open(t) => t !in s.tabs && forall m :: m in s.log ==> m.tab != t
    case Join(t, at) => t in s.tabs && at > 0 && at >= s.tabs[t].announcedAt
    case ClickListen(t) => t in s.tabs && s.tabs[t].phase.Elsewhere?
    case Move(t, p) => t in s.tabs && (Active(p) ==> Active(s.tabs[t].phase))
    case Kick(t) => t in s.tabs
    case Deliver(d) => d in s.inFlight && d.dest in s.tabs
    case Shut(t) => t in s.tabs
  }

  ghost function Latest(log: set<Announcement>): (last: Announcement)
    ensures last.at >= 0 && forall m :: m in log ==> !Later(m.at, m.tab, last)
  {
    if log == {} then NOTHING
    else
      var m :| m in log;
      var rest := Latest(log - {m});
      if Later(m.at, m.tab, rest) then m else rest
  }

  ghost function Apply(s: State, step: Step): State {
    if !Enabled(s, step) then s else
    match step
    case Open(t) => s.(tabs := s.tabs[t := Tab(Idle, Out, 0, Latest(s.log))])
    case Join(t, at) =>
      var m := Announcement(at, t);
      State(s.tabs[t := Announced(s.tabs[t], at)], s.inFlight + Broadcast(s.tabs, m), s.log + {m})
    case ClickListen(t) => s.(tabs := s.tabs[t := s.tabs[t].(phase := Joining, entry := ByClick)])
    case Move(t, p) => s.(tabs := s.tabs[t := s.tabs[t].(phase := p, entry := if Active(p) then s.tabs[t].entry else Out)])
    case Kick(t) => s.(tabs := s.tabs[t := ToldOfKick(s.tabs[t])])
    case Deliver(d) => s.(tabs := s.tabs[d.dest := Receive(s.tabs[d.dest], d.dest, d.m)], inFlight := s.inFlight - multiset{d})
    case Shut(t) => s.(tabs := s.tabs - {t})
  }

  /**
    The hypothesis on time: a tab that announces after receiving (or opening after) another's announcement is later
    than it, as it is whenever the clock has moved on.
   */
  ghost predicate Strict(s: State, step: Step) {
    step.Join? && step.t in s.tabs ==> Later(step.at, step.t, s.tabs[step.t].heard)
  }

  // ------------------------------------------------------------------
  // What every step keeps
  // ------------------------------------------------------------------

  /** In the hall by its own announcement. */
  predicate Settled(tab: Tab) {
    tab.entry.ByAnnouncement?
  }

  ghost predicate TabOk(s: State, t: nat)
    requires t in s.tabs
  {
    var tab := s.tabs[t];
    && 0 <= tab.announcedAt
    && (Settled(tab) ==> tab.announcedAt > 0)
    && (tab.announcedAt > 0 ==> Announcement(tab.announcedAt, t) in s.log)
    && (Active(tab.phase) <==> !tab.entry.Out?)
  }

  /** `b`'s last announcement is under way to `a`, or `a` knows of it, and if `a` is settled its own is later. */
  ghost predicate PairOk(s: State, a: nat, b: nat)
    requires a in s.tabs && b in s.tabs
  {
    var m := Announcement(s.tabs[b].announcedAt, b);
    m.at > 0 && Delivery(a, m) !in s.inFlight ==>
      !Later(m.at, m.tab, s.tabs[a].heard) && (Settled(s.tabs[a]) ==> Later(s.tabs[a].announcedAt, a, m))
  }

  ghost predicate Inv(s: State) {
    && (forall t :: t in s.tabs ==> TabOk(s, t))
    && (forall a, b :: a in s.tabs && b in s.tabs && a != b ==> PairOk(s, a, b))
    && (forall m :: m in s.log ==> m.tab in s.tabs ==> m.at <= s.tabs[m.tab].announcedAt)
    && (forall d :: d in s.inFlight ==> d.m in s.log && d.m.tab != d.dest)
  }

  lemma TabKept(s: State, step: Step, t: nat)
    requires Inv(s) && Enabled(s, step) && t in Apply(s, step).tabs
    ensures TabOk(Apply(s, step), t)
  {
    if t in s.tabs {
      assert TabOk(s, t);
    }
  }

  lemma PairKept(s: State, step: Step, a: nat, b: nat)
    requires Inv(s) && Enabled(s, step) && Strict(s, step)
    requires a in Apply(s, step).tabs && b in Apply(s, step).tabs && a != b
    ensures PairOk(Apply(s, step), a, b)
  {
    if a in s.tabs {
      assert TabOk(s, a);
    }
    if b in s.tabs {
      assert TabOk(s, b);
    }
    if a in s.tabs && b in s.tabs {
      assert PairOk(s, a, b);
    }
  }

  lemma StepKeepsInv(s: State, step: Step)
    requires Inv(s) && Strict(s, step)
    ensures Inv(Apply(s, step))
  {
    if Enabled(s, step) {
      var s' := Apply(s, step);
      forall t | t in s'.tabs
        ensures TabOk(s', t)
      {
        TabKept(s, step, t);
      }
      forall a, b | a in s'.tabs && b in s'.tabs && a != b
        ensures PairOk(s', a, b)
      {
        PairKept(s, step, a, b);
      }
    }
  }

  // ------------------------------------------------------------------
  // Whole runs
  // ------------------------------------------------------------------

  ghost function Run(s: State, steps: seq<Step>): State
    decreases |steps|
  {
    if steps == [] then s else Run(Apply(s, steps[0]), steps[1..])
  }

  ghost predicate StrictRun(s: State, steps: seq<Step>)
    decreases |steps|
  {
    steps == [] || (Strict(s, steps[0]) && StrictRun(Apply(s, steps[0]), steps[1..]))
  }

  lemma {:induction false} RunKeepsInv(s: State, steps: seq<Step>)
    requires Inv(s) && StrictRun(s, steps)
    ensures Inv(Run(s, steps))
    decreases |steps|
  {
    if steps != [] {
      StepKeepsInv(s, steps[0]);
      RunKeepsInv(Apply(s, steps[0]), steps[1..]);
    }
  }

  /** With no announcement under way, two tabs cannot both be in the hall by their own announcement. */
  lemma OneSettledTab(s: State, a: nat, b: nat)
    requires Inv(s) && s.inFlight == multiset{} && a in s.tabs && b in s.tabs && Settled(s.tabs[a]) && Settled(s.tabs[b])
    ensures a == b
  {
    assert a != b ==> PairOk(s, a, b);
  }

  /**
    After any run that meets the hypothesis, whenever no announcement is under way: at most one tab is in the hall by
    its own announcement, and any other active tab came there by a click or by being told of a kick.
   */
  lemma AtMostOneTab(steps: seq<Step>, a: nat, b: nat)
    requires StrictRun(START, steps)
    requires var end := Run(START, steps);
             && end.inFlight == multiset{} && a in end.tabs && b in end.tabs && a != b
             && Active(end.tabs[a].phase) && Active(end.tabs[b].phase)
    ensures var end := Run(START, steps);
            end.tabs[a].entry.ByClick? || end.tabs[a].entry.ByKick? || end.tabs[b].entry.ByClick? || end.tabs[b].entry.ByKick?
  {
    RunKeepsInv(START, steps);
    var end := Run(START, steps);
    assert TabOk(end, a) && TabOk(end, b);
    if Settled(end.tabs[a]) && Settled(end.tabs[b]) {
      OneSettledTab(end, a, b);
    }
  }

  /** A kick makes a tab active exactly if it was idle or closed: not yet joined, or the hall switched off. */
  lemma KickActivatesExactly(s: State, t: nat)
    requires Inv(s) && t in s.tabs
    ensures var s' := Apply(s, Kick(t));
            && (!Active(s.tabs[t].phase) && Active(s'.tabs[t].phase) <==> s.tabs[t].phase == Idle || s.tabs[t].phase == Closed)
            && (Settled(s'.tabs[t]) <==> Settled(s.tabs[t]))
            && s'.inFlight == s.inFlight
  {
    assert TabOk(s, t);
  }

  /** Nothing but a click and a kick makes a tab active without an announcement, and each exactly in the phases it names. */
  lemma EntryExactly(s: State, step: Step, t: nat)
    requires Inv(s) && t in s.tabs && t in Apply(s, step).tabs
    ensures var tab, tab' := s.tabs[t], Apply(s, step).tabs[t];
            && (tab'.entry.ByClick? && !tab.entry.ByClick? <==> step == ClickListen(t) && tab.phase == Elsewhere)
            && (tab'.entry.ByKick? && !tab.entry.ByKick? <==>
                  step == Kick(t) && (tab.phase == Idle || tab.phase == Closed || tab.entry.ByClick?))
            && (tab'.entry.ByAnnouncement? && !tab.entry.ByAnnouncement? ==> step.Join? && step.t == t)
  {
    assert TabOk(s, t);
  }

  /** `t` made the greatest announcement of all. */
  ghost predicate Greatest(s: State, t: nat) {
    && t in s.tabs
    && forall m :: m in s.log && m != Announcement(s.tabs[t].announcedAt, t) ==> Later(s.tabs[t].announcedAt, t, m)
  }

  /** A step other than `mine.tab`'s own that announces nothing later than `mine`. */
  predicate Lesser(step: Step, mine: Announcement) {
    match step
    case Open(u) => true
    case Join(u, at) => u != mine.tab && Later(mine.at, mine.tab, Announcement(at, u))
    case ClickListen(u) => u != mine.tab
    case Move(u, _) => u != mine.tab
    case Kick(u) => u != mine.tab
    case Deliver(_) => true
    case Shut(u) => u != mine.tab
  }

  ghost predicate AllLesser(steps: seq<Step>, mine: Announcement) {
    forall i :: 0 <= i < |steps| ==> Lesser(steps[i], mine)
  }

  /** What is under way was announced, by another tab. */
  ghost predicate FlightOk(s: State) {
    forall d :: d in s.inFlight ==> d.m in s.log && d.m.tab != d.dest
  }

  lemma FlightStep(s: State, step: Step)
    requires FlightOk(s)
    ensures FlightOk(Apply(s, step))
  {
  }

  lemma GreatestStep(s: State, step: Step, t: nat)
    requires Greatest(s, t) && FlightOk(s) && Lesser(step, Announcement(s.tabs[t].announcedAt, t))
    ensures var s' := Apply(s, step);
            Greatest(s', t) && s'.tabs[t] == s.tabs[t].(heard := s'.tabs[t].heard)
  {
  }

  /**
    Takeover never makes the tab with the greatest announcement leave, whatever the other tabs do short of a greater
    announcement, and even when announcements were not strict.
   */
  lemma {:induction false} GreatestStays(s: State, steps: seq<Step>, t: nat)
    requires Greatest(s, t) && FlightOk(s) && AllLesser(steps, Announcement(s.tabs[t].announcedAt, t))
    ensures var end := Run(s, steps);
            Greatest(end, t) && end.tabs[t] == s.tabs[t].(heard := end.tabs[t].heard)
    decreases |steps|
  {
    if steps != [] {
      FlightStep(s, steps[0]);
      GreatestStep(s, steps[0], t);
      GreatestStays(Apply(s, steps[0]), steps[1..], t);
    }
  }

  /** When everything is delivered that tab is the only one in the hall by its own announcement. */
  lemma GreatestRemains(s: State, steps: seq<Step>, t: nat, other: nat)
    requires Inv(s) && Greatest(s, t) && Settled(s.tabs[t])
    requires AllLesser(steps, Announcement(s.tabs[t].announcedAt, t)) && StrictRun(s, steps)
    requires Run(s, steps).inFlight == multiset{} && other in Run(s, steps).tabs
    ensures t in Run(s, steps).tabs && Settled(Run(s, steps).tabs[t])
    ensures Settled(Run(s, steps).tabs[other]) ==> other == t
  {
    GreatestStays(s, steps, t);
    RunKeepsInv(s, steps);
    if Settled(Run(s, steps).tabs[other]) {
      OneSettledTab(Run(s, steps), t, other);
    }
  }

  /** Of two different announcements exactly one is later, by time and then by tab. */
  lemma LaterExactly(a: Announcement, b: Announcement)
    ensures Later(a.at, a.tab, b) <==> a.at > b.at || (a.at == b.at && a.tab > b.tab)
    ensures a != b ==> (Later(a.at, a.tab, b) <==> !Later(b.at, b.tab, a))
  {
  }

  // ------------------------------------------------------------------
  // The limits of the statement are real
  // ------------------------------------------------------------------

  lemma RunStep(s: State, step: Step, rest: seq<Step>)
    ensures Run(s, [step] + rest) == Run(Apply(s, step), rest)
  {
    assert ([step] + rest)[1..] == rest;
  }

  lemma StrictStep(s: State, step: Step, rest: seq<Step>)
    ensures StrictRun(s, [step] + rest) <==> Strict(s, step) && StrictRun(Apply(s, step), rest)
  {
    assert ([step] + rest)[1..] == rest;
  }

  lemma {:induction false} RunSplit(s: State, a: seq<Step>, b: seq<Step>)
    ensures Run(s, a + b) == Run(Run(s, a), b)
    ensures StrictRun(s, a + b) <==> StrictRun(s, a) && StrictRun(Run(s, a), b)
    decreases |a|
  {
    if a == [] {
      assert a + b == b;
    } else {
      assert (a + b)[1..] == a[1..] + b;
      RunSplit(Apply(s, a[0]), a[1..], b);
    }
  }

  /** Tab 2 announces itself at time 5 and tab 1 receives it. */
  const ANNOUNCED: seq<Step> := [Open(1), Open(2), Join(2, 5), Deliver(Delivery(1, Announcement(5, 2)))]

  /** Tab 1 answers at the same time and tab 2 receives that. */
  const ANSWERED: seq<Step> := [Join(1, 5), Deliver(Delivery(2, Announcement(5, 1)))]

  function Answering(): State {
    var m := Announcement(5, 2);
    State(map[1 := Tab(Idle, Out, 0, m), 2 := Tab(Joining, ByAnnouncement, 5, NOTHING)], multiset{}, {m})
  }

  lemma AnsweringReached()
    ensures Run(START, ANNOUNCED) == Answering() && StrictRun(START, ANNOUNCED)
  {
    var m := Announcement(5, 2);
    var d := Delivery(1, m);
    var s1 := State(map[1 := Tab(Idle, Out, 0, NOTHING)], multiset{}, {});
    var s2 := State(map[1 := Tab(Idle, Out, 0, NOTHING), 2 := Tab(Idle, Out, 0, NOTHING)], multiset{}, {});
    var s3 := State(map[1 := Tab(Idle, Out, 0, NOTHING), 2 := Tab(Joining, ByAnnouncement, 5, NOTHING)], multiset{d}, {m});
    assert Apply(START, Open(1)) == s1;
    assert Apply(s1, Open(2)) == s2;
    assert Apply(s2, Join(2, 5)) == s3 by {
      assert (set t | t in s2.tabs && t != 2 :: Delivery(t, m)) == {d};
    }
    assert Apply(s3, Deliver(d)) == Answering();
    RunStep(START, Open(1), [Open(2), Join(2, 5), Deliver(d)]);
    RunStep(s1, Open(2), [Join(2, 5), Deliver(d)]);
    RunStep(s2, Join(2, 5), [Deliver(d)]);
    RunStep(s3, Deliver(d), []);
    StrictStep(START, Open(1), [Open(2), Join(2, 5), Deliver(d)]);
    StrictStep(s1, Open(2), [Join(2, 5), Deliver(d)]);
    StrictStep(s2, Join(2, 5), [Deliver(d)]);
    StrictStep(s3, Deliver(d), []);
  }

  lemma AnswerOverlaps()
    ensures var end := Run(Answering(), ANSWERED);
            end.inFlight == multiset{} && 1 in end.tabs && 2 in end.tabs && Settled(end.tabs[1]) && Settled(end.tabs[2])
  {
    var s := Answering();
    var m := Announcement(5, 1);
    var d := Delivery(2, m);
    var s1 := State(map[1 := Tab(Joining, ByAnnouncement, 5, Announcement(5, 2)), 2 := Tab(Joining, ByAnnouncement, 5, NOTHING)], multiset{d}, {Announcement(5, 2), m});
    assert Apply(s, Join(1, 5)) == s1 by {
      assert (set t | t in s.tabs && t != 1 :: Delivery(t, m)) == {d};
    }
    RunStep(s, Join(1, 5), [Deliver(d)]);
    RunStep(s1, Deliver(d), []);
    assert Apply(s1, Deliver(d)).inFlight == multiset{};
  }

  /** Answering an announcement within its millisecond, from a tab with a smaller id, leaves two tabs in the hall. */
  lemma SameMillisecondOverlaps()
    ensures var end := Run(START, ANNOUNCED + ANSWERED);
            end.inFlight == multiset{} && 1 in end.tabs && 2 in end.tabs && Settled(end.tabs[1]) && Settled(end.tabs[2])
  {
    RunSplit(START, ANNOUNCED, ANSWERED);
    AnsweringReached();
    AnswerOverlaps();
  }

  ghost predicate OnlyDeliveries(steps: seq<Step>) {
    forall i :: 0 <= i < |steps| ==> steps[i].Deliver?
  }

  /** `m` is all that is under way; it is on its way to `b`, which is still `was`, or `b` has received it. */
  ghost predicate Answered(s: State, was: Tab, mine: Tab, b: nat, m: Announcement) {
    && m.tab in s.tabs && s.tabs[m.tab] == mine && b in s.tabs && m.tab != b
    && (forall d :: d in s.inFlight ==> d.m == m && d.dest != m.tab)
    && s.inFlight[Delivery(b, m)] <= 1
    && s.tabs[b] == if Delivery(b, m) in s.inFlight then was else Receive(was, b, m)
  }

  lemma {:induction false} AnswersArrive(s: State, steps: seq<Step>, was: Tab, mine: Tab, b: nat, m: Announcement)
    requires Answered(s, was, mine, b, m) && OnlyDeliveries(steps)
    ensures Answered(Run(s, steps), was, mine, b, m)
    decreases |steps|
  {
    if steps != [] {
      assert Answered(Apply(s, steps[0]), was, mine, b, m);
      AnswersArrive(Apply(s, steps[0]), steps[1..], was, mine, b, m);
    }
  }

  /**
    The hypothesis is exact. Among any number of tabs, let `a` answer the announcement of `b`, which is in the hall.
    However the answer is delivered, in the end both are in the hall if and only if the answer is not the later one.
   */
  lemma AnswerExact(s: State, a: nat, b: nat, at: int, steps: seq<Step>)
    requires Inv(s) && s.inFlight == multiset{} && a in s.tabs && b in s.tabs && a != b && Settled(s.tabs[b])
    requires at > 0 && at >= s.tabs[a].announcedAt
    requires OnlyDeliveries(steps) && Run(s, [Join(a, at)] + steps).inFlight == multiset{}
    ensures var end := Run(s, [Join(a, at)] + steps);
            && a in end.tabs && b in end.tabs && Settled(end.tabs[a])
            && (Settled(end.tabs[b]) <==> !Later(at, a, Announcement(s.tabs[b].announcedAt, b)))
  {
    var m := Announcement(at, a);
    RunStep(s, Join(a, at), steps);
    AnswersArrive(Apply(s, Join(a, at)), steps, s.tabs[b], Announced(s.tabs[a], at), b, m);
    assert TabOk(s, b);
  }

  /** Tab 1 answers a millisecond later, tab 2 gives way, and its visitor clicks "listen here". */
  const CLICKED: seq<Step> := [Join(1, 6), Deliver(Delivery(2, Announcement(6, 1))), ClickListen(2)]

  lemma ClickReached()
    ensures Run(Answering(), CLICKED) == Clicked() && StrictRun(Answering(), CLICKED)
  {
    var s := Answering();
    var m := Announcement(6, 1);
    var d := Delivery(2, m);
    var s1 := State(map[1 := Tab(Joining, ByAnnouncement, 6, Announcement(5, 2)), 2 := Tab(Joining, ByAnnouncement, 5, NOTHING)], multiset{d}, {Announcement(5, 2), m});
    var s2 := State(map[1 := s1.tabs[1], 2 := Tab(Elsewhere, Out, 5, m)], multiset{}, s1.log);
    assert Apply(s, Join(1, 6)) == s1 by {
      assert (set t | t in s.tabs && t != 1 :: Delivery(t, m)) == {d};
    }
    assert Apply(s1, Deliver(d)) == s2;
    RunStep(s, Join(1, 6), [Deliver(d), ClickListen(2)]);
    RunStep(s1, Deliver(d), [ClickListen(2)]);
    RunStep(s2, ClickListen(2), []);
    StrictStep(s, Join(1, 6), [Deliver(d), ClickListen(2)]);
    StrictStep(s1, Deliver(d), [ClickListen(2)]);
    StrictStep(s2, ClickListen(2), []);
  }

  function Clicked(): State {
    var m := Announcement(6, 1);
    State(map[1 := Tab(Joining, ByAnnouncement, 6, Announcement(5, 2)), 2 := Tab(Joining, ByClick, 5, m)], multiset{}, {Announcement(5, 2), m})
  }

  /** Between that click and the join it schedules two tabs are active, though every announcement was strict. */
  lemma ClickOverlaps()
    ensures var end := Run(START, ANNOUNCED + CLICKED);
            && StrictRun(START, ANNOUNCED + CLICKED) && end.inFlight == multiset{} && 1 in end.tabs && 2 in end.tabs
            && Active(end.tabs[1].phase) && Active(end.tabs[2].phase)
            && end.tabs[1].entry == ByAnnouncement && end.tabs[2].entry == ByClick
  {
    RunSplit(START, ANNOUNCED, CLICKED);
    AnsweringReached();
    ClickReached();
  }

  /**
    The visitor of a tab in the hall and of one that has yet to join is kicked: both tabs are active, though every
    announcement was strict, nothing is under way and nobody clicked.
   */
  lemma KickOverlaps()
    ensures var steps := ANNOUNCED + [Kick(1), Kick(2)];
            var end := Run(START, steps);
            && StrictRun(START, steps) && end.inFlight == multiset{} && 1 in end.tabs && 2 in end.tabs
            && Active(end.tabs[1].phase) && Active(end.tabs[2].phase)
            && end.tabs[1].entry == ByKick && end.tabs[2].entry == ByAnnouncement
  {
    var s := Answering();
    var s1 := Apply(s, Kick(1));
    RunSplit(START, ANNOUNCED, [Kick(1), Kick(2)]);
    AnsweringReached();
    RunStep(s, Kick(1), [Kick(2)]);
    RunStep(s1, Kick(2), []);
    StrictStep(s, Kick(1), [Kick(2)]);
    StrictStep(s1, Kick(2), []);
  }

  // ------------------------------------------------------------------
  // One page
  // ------------------------------------------------------------------

  class Page {
    const tabId: nat
    var phase: Phase
    var announcedAt: int
    var joinTimer: bool
    var afterBan: bool
    var idleJoins: nat
    var joinInFlight: bool
    var joinSeq: nat
    ghost var entry: Entry
    ghost var heard: Announcement

    ghost function Now(): Tab
      reads this
    {
      Tab(phase, entry, announcedAt, heard)
    }

    constructor (id: nat, ghost heard: Announcement)
      ensures tabId == id && Now() == Tab(Idle, Out, 0, heard) && !joinTimer && idleJoins == 0 && !joinInFlight && joinSeq == 0
    {
      tabId := id;
      phase, announcedAt, joinTimer, afterBan, idleJoins, joinInFlight, joinSeq := Idle, 0, false, false, 0, false, 0;
      this.entry, this.heard := Out, heard;
    }

    /** scheduleJoin: one timer at a time. */
    method ScheduleJoin()
      modifies this`joinTimer, this`afterBan
      ensures joinTimer && !afterBan
    {
      joinTimer, afterBan := true, false;
    }

    /**
      The timer fires: the join now waits for the browser to be idle, and nothing can call it back. The timer set for
      the end of a ban does so only if the page still shows the kick.
     */
    method OnTimer()
      requires joinTimer
      modifies this`joinTimer, this`idleJoins
      ensures !joinTimer && idleJoins == old(idleJoins) + if afterBan && phase != Kicked then 0 else 1
    {
      joinTimer := false;
      if !afterBan || phase == Kicked {
        idleJoins := idleJoins + 1;
      }
    }

    /**
      leave: any join under way is void and a scheduled one is cancelled; one whose timer has fired is not, and will
      still run.
     */
    method Leave(p: Phase)
      modifies this
      ensures Now() == old(Now()).(phase := p, entry := if Active(p) then old(entry) else Out)
      ensures !joinTimer && idleJoins == old(idleJoins) && !joinInFlight && joinSeq == old(joinSeq) + 1
    {
      joinSeq := joinSeq + 1;
      joinInFlight := false;
      joinTimer := false;
      phase := p;
      entry := if Active(p) then entry else Out;
    }

    method OnMessage(m: Announcement)
      modifies this
      ensures Now() == Receive(old(Now()), tabId, m)
      ensures phase == (if old(phase) !in {Idle, Elsewhere, Closed} && m.tab != tabId
                           && (m.at > announcedAt || (m.at == announcedAt && m.tab >= tabId)) then Elsewhere else old(phase))
      ensures phase != old(phase) ==> joinSeq > old(joinSeq) && !joinTimer && !joinInFlight && idleJoins == old(idleJoins)
    {
      heard := if Later(m.at, m.tab, heard) then m else heard;
      if m.tab == tabId {
        return;
      }
      if announcedAt > m.at || (announcedAt == m.at && tabId > m.tab) {
        return;
      }
      if Active(phase) {
        Leave(Elsewhere);
      }
    }

    /** onModeration with a kick: a join is scheduled for after the ban. */
    method OnKick()
      modifies this
      ensures Now() == ToldOfKick(old(Now()))
      ensures old(phase) != Elsewhere ==> joinTimer && afterBan && joinSeq == old(joinSeq) + 1
    {
      if phase == Elsewhere {
        return;
      }
      Leave(Kicked);
      entry := if entry == ByAnnouncement then ByAnnouncement else ByKick;
      joinTimer, afterBan := true, true;
    }

    /** An idle callback runs join. */
    method OnIdle(now: int, allowed: bool) returns (sent: bool, m: Announcement)
      requires idleJoins > 0
      modifies this
      ensures idleJoins == old(idleJoins) - 1
      ensures sent <==> allowed && !old(joinInFlight)
      ensures sent ==> Now() == Announced(old(Now()), now) && m == Announcement(now, tabId)
      ensures !sent ==> Now() == old(Now())
    {
      idleJoins := idleJoins - 1;
      sent, m := StartJoin(now, allowed);
    }

    /** join up to its first await; `allowed` is the rest of its guard (session, switch, token). */
    method StartJoin(now: int, allowed: bool) returns (sent: bool, m: Announcement)
      modifies this
      ensures idleJoins == old(idleJoins) && !joinTimer
      ensures sent <==> allowed && !old(joinInFlight)
      ensures sent ==> Now() == Announced(old(Now()), now) && m == Announcement(now, tabId) && joinSeq == old(joinSeq) + 1 && joinInFlight
      ensures !sent ==> Now() == old(Now()) && joinSeq == old(joinSeq)
    {
      joinTimer := false;
      m := Announcement(now, tabId);
      if !allowed || joinInFlight {
        return false, m;
      }
      joinSeq := joinSeq + 1;
      joinInFlight := true;
      announcedAt := now;
      entry := ByAnnouncement;
      if phase != Degraded && phase != Reconnecting {
        phase := Joining;
      }
      sent := true;
    }
  }
}
