/**
  Shared list queries of backend/internal/store/list_flight.go. Callers of `do` are threads; each locked section,
  the query itself, closing `done` and waking up is one atomic step, and steps interleave in any order.
 */
module QueryFlights {
  import opened Collections

  type Key = string

  /** What a query may do, and what `do` then returns: its value, its error, or an error made of its panic. */
  datatype Outcome = Rows(rows: int) | Failure(error: int) | Panic(cause: int)

  datatype Answer = Answer(value: Option<int>, error: Option<int>)

  /** flightCall: `result` is None until the query has returned. */
  datatype Flight = Flight(key: Key, leader: nat, result: Option<Answer>, closed: bool)

  /** Where a caller is; `f` is its flight. */
  datatype Place =
    | Leading(f: nat)
    | Ran(f: nat)
    | Removed(f: nat)
    | Waiting(f: nat)
    | Returned(f: nat, answer: Answer)
    | Cancelled(f: nat)

  datatype State = State(flights: seq<Flight>, calls: map<Key, nat>, places: map<nat, Place>)

  datatype Step =
    | Enter(t: nat, key: Key)
    | Run(t: nat, outcome: Outcome)
    | Remove(t: nat)
    | Close(t: nat)
    | Wake(t: nat)
    | Cancel(t: nat)

  const START := State([], map[], map[])

  /** call.val, call.err after the query; a panic is recovered and leaves only an error. */
  function AnswerOf(o: Outcome): Answer {
    match o
    case Rows(r) => Answer(Some(r), None)
    case Failure(e) => Answer(None, Some(e))
    case Panic(c) => Answer(None, Some(c))
  }

  ghost predicate FlightsExist(s: State) {
    && (forall t :: t in s.places ==> s.places[t].f < |s.flights|)
    && (forall k :: k in s.calls ==> s.calls[k] < |s.flights|)
  }

  ghost predicate Enabled(s: State, step: Step)
    requires FlightsExist(s)
  {
    match step
    case Enter(t, _) => t !in s.places
    case Run(t, _) => t in s.places && s.places[t].Leading?
    case Remove(t) => t in s.places && s.places[t].Ran?
    case Close(t) => t in s.places && s.places[t].Removed?
    case Wake(t) => t in s.places && s.places[t].Waiting? && s.flights[s.places[t].f].closed
    case Cancel(t) => t in s.places && s.places[t].Waiting?
  }

  /** What `do` returns from a flight: the zero values while nothing has been written. */
  function Read(fl: Flight): Answer {
    if fl.result.Some? then fl.result.value else Answer(None, None)
  }

  ghost function Apply(s: State, step: Step): State
    requires FlightsExist(s)
  {
    if !Enabled(s, step) then s else
    match step
    case Enter(t, key) =>
      if key in s.calls then s.(places := s.places[t := Waiting(s.calls[key])])
      else State(s.flights + [Flight(key, t, None, false)], s.calls[key := |s.flights|], s.places[t := Leading(|s.flights|)])
    case Run(t, o) =>
      var f := s.places[t].f;
      s.(flights := s.flights[f := s.flights[f].(result := Some(AnswerOf(o)))], places := s.places[t := Ran(f)])
    case Remove(t) =>
      var f := s.places[t].f;
      s.(calls := s.calls - {s.flights[f].key}, places := s.places[t := Removed(f)])
    case Close(t) =>
      var f := s.places[t].f;
      s.(flights := s.flights[f := s.flights[f].(closed := true)], places := s.places[t := Returned(f, Read(s.flights[f]))])
    case Wake(t) =>
      var f := s.places[t].f;
      s.(places := s.places[t := Returned(f, Read(s.flights[f]))])
    case Cancel(t) => s.(places := s.places[t := Cancelled(s.places[t].f)])
  }

  // ------------------------------------------------------------------
  // What every step keeps
  // ------------------------------------------------------------------

  /** The leader of an open flight is on its way from registering to closing. */
  ghost predicate LeaderAt(fl: Flight, f: nat, place: Place, registered: bool) {
    && place.f == f
    && !fl.closed
    && (registered <==> place.Leading? || place.Ran?)
    && (place.Leading? || place.Ran? || place.Removed?)
    && (fl.result.Some? <==> !place.Leading?)
  }

  ghost predicate Registered(s: State, f: nat)
    requires f < |s.flights|
  {
    s.flights[f].key in s.calls && s.calls[s.flights[f].key] == f
  }

  ghost predicate FlightOk(s: State, f: nat)
    requires f < |s.flights|
  {
    var fl := s.flights[f];
    if fl.closed then fl.result.Some? && !Registered(s, f)
    else fl.leader in s.places && LeaderAt(fl, f, s.places[fl.leader], Registered(s, f))
  }

  ghost predicate PlaceOk(s: State, t: nat)
    requires FlightsExist(s) && t in s.places
  {
    var fl := s.flights[s.places[t].f];
    match s.places[t]
    case Leading(_) => fl.leader == t && !fl.closed
    case Ran(_) => fl.leader == t && !fl.closed
    case Removed(_) => fl.leader == t && !fl.closed
    case Returned(_, a) => fl.closed && fl.result == Some(a)
    case _ => true
  }

  ghost predicate Inv(s: State) {
    && FlightsExist(s)
    && (forall k :: k in s.calls ==> s.flights[s.calls[k]].key == k)
    && (forall f: nat :: f < |s.flights| ==> FlightOk(s, f))
    && (forall t :: t in s.places ==> PlaceOk(s, t))
  }

  lemma FlightKept(s: State, step: Step, f: nat)
    requires Inv(s) && Enabled(s, step) && FlightsExist(Apply(s, step)) && f < |Apply(s, step).flights|
    ensures FlightOk(Apply(s, step), f)
  {
    if step.t in s.places {
      assert PlaceOk(s, step.t);
      assert FlightOk(s, s.places[step.t].f);
    }
    if f < |s.flights| {
      assert FlightOk(s, f);
    }
  }

  lemma PlaceKept(s: State, step: Step, t: nat)
    requires Inv(s) && Enabled(s, step) && FlightsExist(Apply(s, step)) && t in Apply(s, step).places
    ensures PlaceOk(Apply(s, step), t)
  {
    if step.t in s.places {
      assert PlaceOk(s, step.t);
      assert FlightOk(s, s.places[step.t].f);
    }
    if t in s.places {
      assert PlaceOk(s, t);
    }
  }

  lemma StepKeepsInv(s: State, step: Step)
    requires Inv(s)
    ensures Inv(Apply(s, step))
  {
    if Enabled(s, step) {
      var s' := Apply(s, step);
      forall f: nat | f < |s'.flights|
        ensures FlightOk(s', f)
      {
        FlightKept(s, step, f);
      }
      forall t | t in s'.places
        ensures PlaceOk(s', t)
      {
        PlaceKept(s, step, t);
      }
    }
  }

  // ------------------------------------------------------------------
  // What holds in every reachable state
  // ------------------------------------------------------------------

  /** At most one query runs for a key. */
  lemma OneQueryPerKey(s: State, t: nat, u: nat)
    requires Inv(s) && t in s.places && u in s.places && s.places[t].Leading? && s.places[u].Leading?
    requires s.flights[s.places[t].f].key == s.flights[s.places[u].f].key
    ensures t == u
  {
    assert PlaceOk(s, t) && PlaceOk(s, u);
    assert FlightOk(s, s.places[t].f) && FlightOk(s, s.places[u].f);
  }

  ghost predicate Leads(s: State, t: nat, key: Key)
    requires FlightsExist(s)
  {
    t in s.places && (s.places[t].Leading? || s.places[t].Ran?) && s.flights[s.places[t].f].key == key
  }

  /** A key is in `calls` exactly from its leader's registration to its removal. */
  lemma RegisteredWhileLed(s: State, key: Key)
    requires Inv(s)
    ensures key in s.calls <==> exists t :: Leads(s, t, key)
  {
    if key in s.calls {
      var f := s.calls[key];
      assert FlightOk(s, f);
      assert PlaceOk(s, s.flights[f].leader);
      assert Leads(s, s.flights[f].leader, key);
    }
    forall t | Leads(s, t, key)
      ensures key in s.calls
    {
      assert PlaceOk(s, t) && FlightOk(s, s.places[t].f);
    }
  }

  /** `done` is closed once, and only when the result stands. */
  lemma ClosedOnceAfterResult(s: State, t: nat)
    requires Inv(s) && Enabled(s, Close(t))
    ensures !s.flights[s.places[t].f].closed && s.flights[s.places[t].f].result.Some?
    ensures Apply(s, Close(t)).flights[s.places[t].f].closed
  {
    assert PlaceOk(s, t) && FlightOk(s, s.places[t].f);
  }

  /** The steps left to the leader before `done` is closed. */
  function StepsLeft(place: Place): nat {
    match place
    case Leading(_) => 3
    case Ran(_) => 2
    case Removed(_) => 1
    case _ => 0
  }

  function LeaderStep(t: nat, place: Place, o: Outcome): Step {
    match place
    case Leading(_) => Run(t, o)
    case Ran(_) => Remove(t)
    case _ => Close(t)
  }

  /** No caller waits for ever: it can wake up, or its flight's leader has a step that brings closing nearer. */
  lemma NoStuckCaller(s: State, t: nat, o: Outcome)
    requires Inv(s) && t in s.places && s.places[t].Waiting?
    ensures var fl := s.flights[s.places[t].f];
            || Enabled(s, Wake(t))
            || (fl.leader in s.places && Enabled(s, LeaderStep(fl.leader, s.places[fl.leader], o))
                && StepsLeft(Apply(s, LeaderStep(fl.leader, s.places[fl.leader], o)).places[fl.leader]) < StepsLeft(s.places[fl.leader]))
  {
    assert FlightOk(s, s.places[t].f);
  }

  // ------------------------------------------------------------------
  // Whole runs
  // ------------------------------------------------------------------

  ghost function RunAll(s: State, steps: seq<Step>): (r: State)
    requires Inv(s)
    ensures Inv(r)
    decreases |steps|
  {
    if steps == [] then s
    else
      StepKeepsInv(s, steps[0]);
      RunAll(Apply(s, steps[0]), steps[1..])
  }

  /** Flights keep their key and leader, a written result stays, and nobody changes flights. */
  ghost predicate Grown(s: State, s': State)
    requires FlightsExist(s) && FlightsExist(s')
  {
    && |s.flights| <= |s'.flights|
    && (forall f :: 0 <= f < |s.flights| ==>
          && s'.flights[f].key == s.flights[f].key && s'.flights[f].leader == s.flights[f].leader
          && (s.flights[f].result.Some? ==> s'.flights[f].result == s.flights[f].result))
    && (forall t :: t in s.places ==> t in s'.places && s'.places[t].f == s.places[t].f)
  }

  lemma StepGrows(s: State, step: Step)
    requires Inv(s)
    ensures FlightsExist(Apply(s, step)) && Grown(s, Apply(s, step))
  {
    StepKeepsInv(s, step);
    if step.t in s.places {
      assert PlaceOk(s, step.t);
      assert FlightOk(s, s.places[step.t].f);
    }
  }

  lemma {:induction false} RunGrows(s: State, steps: seq<Step>)
    requires Inv(s)
    ensures Grown(s, RunAll(s, steps))
    decreases |steps|
  {
    if steps != [] {
      StepKeepsInv(s, steps[0]);
      StepGrows(s, steps[0]);
      RunGrows(Apply(s, steps[0]), steps[1..]);
    }
  }

  /**
    Whatever happens after a caller has entered, it stays with the flight that was registered for its key when it
    entered (its own, if none was), and when it returns without being cancelled it returns that flight's result.
   */
  lemma CallerGetsItsFlight(s: State, t: nat, key: Key, steps: seq<Step>)
    requires Inv(s) && t !in s.places && Inv(Apply(s, Enter(t, key)))
    ensures var joined := Apply(s, Enter(t, key));
            var end := RunAll(joined, steps);
            && key in joined.calls && t in end.places
            && var f := joined.calls[key];
               && f == (if key in s.calls then s.calls[key] else |s.flights|)
               && f < |end.flights| && !joined.flights[f].closed
               && end.places[t].f == f && end.flights[f].key == key
               && (end.places[t].Returned? ==> end.flights[f].result == Some(end.places[t].answer))
  {
    var joined := Apply(s, Enter(t, key));
    var end := RunAll(joined, steps);
    RunGrows(joined, steps);
    assert FlightOk(joined, joined.calls[key]);
    assert PlaceOk(end, t);
  }

  /** The number of queries a run executes. */
  ghost function Queries(s: State, steps: seq<Step>): nat
    requires Inv(s)
    decreases |steps|
  {
    if steps == [] then 0
    else
      StepKeepsInv(s, steps[0]);
      (if steps[0].Run? && Enabled(s, steps[0]) then 1 else 0) + Queries(Apply(s, steps[0]), steps[1..])
  }

  ghost function Answered(s: State): set<nat> {
    set f: nat | f < |s.flights| && s.flights[f].result.Some?
  }

  /** Each flight's query is executed once. */
  lemma {:induction false} OneQueryPerFlight(s: State, steps: seq<Step>)
    requires Inv(s)
    ensures Queries(s, steps) == |Answered(RunAll(s, steps))| - |Answered(s)|
    decreases |steps|
  {
    if steps != [] {
      var s' := Apply(s, steps[0]);
      StepKeepsInv(s, steps[0]);
      OneQueryPerFlight(s', steps[1..]);
      if Enabled(s, steps[0]) && steps[0].t in s.places {
        assert PlaceOk(s, steps[0].t);
        assert FlightOk(s, s.places[steps[0].t].f);
      }
      if steps[0].Run? && Enabled(s, steps[0]) {
        assert Answered(s') == Answered(s) + {s.places[steps[0].t].f};
      } else {
        assert Answered(s') == Answered(s);
      }
    }
  }

  // ------------------------------------------------------------------
  // The atomic sections of do
  // ------------------------------------------------------------------

  class QueryFlight {
    var flights: seq<Flight>
    var calls: map<Key, nat>
    ghost var places: map<nat, Place>

    ghost function Now(): State
      reads this
    {
      State(flights, calls, places)
    }

    constructor ()
      ensures Inv(Now()) && Now() == START
    {
      flights, calls, places := [], map[], map[];
    }

    /** The first locked section: join the registered flight or register one. */
    method EnterSection(t: nat, key: Key) returns (f: nat, leader: bool)
      requires Inv(Now()) && t !in places
      modifies this
      ensures Inv(Now()) && Now() == Apply(old(Now()), Enter(t, key))
      ensures f == places[t].f && (leader <==> places[t] == Leading(f)) && (!leader <==> places[t] == Waiting(f))
    {
      StepKeepsInv(Now(), Enter(t, key));
      if key in calls {
        f := calls[key];
        places := places[t := Waiting(f)];
        return f, false;
      }
      f := |flights|;
      flights := flights + [Flight(key, t, None, false)];
      calls := calls[key := f];
      places := places[t := Leading(f)];
      leader := true;
    }

    /** The query, its panic recovered. */
    method RunSection(t: nat, f: nat, o: Outcome)
      requires Inv(Now()) && t in places && places[t] == Leading(f)
      modifies this
      ensures Inv(Now()) && Now() == Apply(old(Now()), Run(t, o))
    {
      StepKeepsInv(Now(), Run(t, o));
      flights := flights[f := flights[f].(result := Some(AnswerOf(o)))];
      places := places[t := Ran(f)];
    }

    /** The second locked section. */
    method RemoveSection(t: nat, f: nat)
      requires Inv(Now()) && t in places && places[t] == Ran(f)
      modifies this
      ensures Inv(Now()) && Now() == Apply(old(Now()), Remove(t))
    {
      StepKeepsInv(Now(), Remove(t));
      calls := calls - {flights[f].key};
      places := places[t := Removed(f)];
    }

    /** close(call.done), then the leader returns. */
    method CloseSection(t: nat, f: nat) returns (a: Answer)
      requires Inv(Now()) && t in places && places[t] == Removed(f)
      modifies this
      ensures Inv(Now()) && Now() == Apply(old(Now()), Close(t))
      ensures places[t] == Returned(f, a) && flights[f].result == Some(a)
    {
      ClosedOnceAfterResult(Now(), t);
      StepKeepsInv(Now(), Close(t));
      flights := flights[f := flights[f].(closed := true)];
      a := Read(flights[f]);
      places := places[t := Returned(f, a)];
    }

    /** A waiting caller, once `done` is closed. */
    method WakeSection(t: nat, f: nat) returns (a: Answer)
      requires Inv(Now()) && t in places && places[t] == Waiting(f) && flights[f].closed
      modifies this
      ensures Inv(Now()) && Now() == Apply(old(Now()), Wake(t))
      ensures places[t] == Returned(f, a) && flights[f].result == Some(a)
    {
      StepKeepsInv(Now(), Wake(t));
      a := Read(flights[f]);
      places := places[t := Returned(f, a)];
      assert PlaceOk(Now(), t);
    }

    /** `do` from end to end, undisturbed, when no flight is registered: the caller's own query, nothing kept. */
    method Do(t: nat, key: Key, o: Outcome) returns (a: Answer)
      requires Inv(Now()) && t !in places && key !in calls
      modifies this
      ensures Inv(Now()) && calls == old(calls) && |flights| == |old(flights)| + 1
      ensures o.Rows? ==> a == Answer(Some(o.rows), None)
      ensures o.Failure? ==> a == Answer(None, Some(o.error))
      ensures o.Panic? ==> a == Answer(None, Some(o.cause))
    {
      var f, leader := EnterSection(t, key);
      RunSection(t, f, o);
      RemoveSection(t, f);
      a := CloseSection(t, f);
    }
  }

  // ------------------------------------------------------------------
  // Keys
  // ------------------------------------------------------------------

  function Digit(d: nat): char
    requires d < 10
  {
    ('0' as int + d) as char
  }

  /** %d of a natural number. */
  function Decimal(n: nat): (s: string)
    ensures |s| > 0 && forall i :: 0 <= i < |s| ==> '0' <= s[i] <= '9'
  {
    if n < 10 then [Digit(n)] else Decimal(n / 10) + [Digit(n % 10)]
  }

  lemma {:induction false} DecimalInjective(m: nat, n: nat)
    requires Decimal(m) == Decimal(n)
    ensures m == n
  {
    var s, t := Decimal(m), Decimal(n);
    assert s[|s| - 1] == Digit(m % 10) && t[|t| - 1] == Digit(n % 10);
    if m >= 10 && n >= 10 {
      assert s[..|s| - 1] == Decimal(m / 10) && t[..|t| - 1] == Decimal(n / 10);
      DecimalInjective(m / 10, n / 10);
    }
  }

  datatype Request = Request(count: bool, contacted: bool, limit: nat, offset: nat, tag: string)

  /** listFlightKey with the kinds it is called with. */
  function FlightKey(r: Request): Key {
    (if r.count then "count" else "list") + ("|" + ((if r.contacted then "true" else "false")
    + ("|" + (Decimal(r.limit) + ("|" + (Decimal(r.offset) + ("|" + r.tag)))))))
  }

  /** Up to the first bar two equal strings are equal, and so are their rests. */
  lemma SplitAtBar(a: string, b: string, x: string, y: string)
    requires a + ("|" + x) == b + ("|" + y) && '|' !in a && '|' !in b
    ensures a == b && x == y
  {
    var s := a + ("|" + x);
    assert s[|a|] == '|' && s[|b|] == '|';
    assert forall i :: 0 <= i < |a| ==> s[i] == a[i] && a[i] != '|';
    assert forall i :: 0 <= i < |b| ==> s[i] == b[i] && b[i] != '|';
    assert a == s[..|a|] && b == s[..|b|];
    assert x == s[|a| + 1..] && y == s[|b| + 1..];
  }

  /** Requests that differ never share a flight. */
  lemma FlightKeyInjective(r: Request, r': Request)
    requires FlightKey(r) == FlightKey(r')
    ensures r == r'
  {
    var c, c' := if r.contacted then "true" else "false", if r'.contacted then "true" else "false";
    var l, l', o, o' := Decimal(r.limit), Decimal(r'.limit), Decimal(r.offset), Decimal(r'.offset);
    SplitAtBar(if r.count then "count" else "list", if r'.count then "count" else "list",
               c + ("|" + (l + ("|" + (o + ("|" + r.tag))))), c' + ("|" + (l' + ("|" + (o' + ("|" + r'.tag))))));
    SplitAtBar(c, c', l + ("|" + (o + ("|" + r.tag))), l' + ("|" + (o' + ("|" + r'.tag))));
    SplitAtBar(l, l', o + ("|" + r.tag), o' + ("|" + r'.tag));
    SplitAtBar(o, o', r.tag, r'.tag);
    DecimalInjective(r.limit, r'.limit);
    DecimalInjective(r.offset, r'.offset);
  }
}
