/** A job ends, whatever else is observed while it is in flight. */
module Ending {
  import opened Options
  import opened State
  import opened Policy
  import opened Jobs
  import opened Deciding
  import opened DeciderInvariant
  import opened Waking
  import opened TaskLife
  import opened Runs

  /** o answers the issue outstanding. */
  predicate Accepts(m: DeciderState, o: Observation) {
    m.job.Some? && ((o.Ran? && m.job.value.AwaitsRun()) || (o.GaveAway? && m.job.value.AwaitsGiveAway()))
  }

  /** Observing e makes an issue, retry or not. */
  predicate IssuesAt(m: DeciderState, e: Event)
    requires m.WellFormed() && ValidObservation(e.o)
  {
    Outstanding(m.Observe(e.now, e.o).0) == NO_ISSUE && Outstanding(m.Decide(e.now, e.o).0) != NO_ISSUE
  }

  /** The job does not end at e. */
  ghost predicate Survives(m: DeciderState, e: Event)
    requires m.WellFormed() && ValidObservation(e.o)
  {
    var seen := m.Observe(e.now, e.o).0;
    seen.WellFormed() && seen.job.Some? && !EndsNow(seen, e.now)
  }

  // What one observation costs.

  lemma AnsweredBurns(before: seq<Header>, after: seq<Header>, maxAttempts: nat, i: nat)
    requires |before| == |after| && i < |before| && before[i].status.Issued? && !after[i].status.Issued?
    requires forall i | 0 <= i < |before| :: Reports(before[i], after[i])
    ensures Fuel(after, maxAttempts) < Fuel(before, maxAttempts)
  {
    FuelBurns(before, after, maxAttempts, i);
  }

  lemma RunBurns(cfg: Config, j: JobState, results: seq<Result>)
    requires j.AwaitsRun() && JobReports(j, j.ReportRun(results))
    ensures Fuel(j.ReportRun(results).Headers(), cfg.MaxAttempts()) < Fuel(j.Headers(), cfg.MaxAttempts())
  {
    var j' := j.ReportRun(results);
    HeadersReport(j, j');
    var i :| 0 <= i < |j.commands| && j.commands[i].header.status.Issued?;
    HeadersAre(j);
    RunAnswers(j, results, i);
    AnsweredBurns(j.Headers(), j'.Headers(), cfg.MaxAttempts(), i);
  }

  lemma GiveAwayBurns(cfg: Config, j: JobState, now: Time, results: map<AssignmentKey, Result>)
    requires j.AwaitsGiveAway() && JobReports(j, j.ReportGiveAway(now, results))
    ensures Fuel(j.ReportGiveAway(now, results).Headers(), cfg.MaxAttempts()) < Fuel(j.Headers(), cfg.MaxAttempts())
  {
    var j' := j.ReportGiveAway(now, results);
    HeadersReport(j, j');
    var i :| 0 <= i < |j.assignments| && j.assignments[i].header.status.Issued?;
    HeadersAre(j);
    GiveAwayAnswers(j, now, results, i);
    AnsweredBurns(j.Headers(), j'.Headers(), cfg.MaxAttempts(), |j.commands| + i);
  }

  lemma ObservedBurns(m: DeciderState, now: Time, o: Observation)
    requires m.WellFormed() && ValidObservation(o) && m.job.Some?
    ensures var seen := m.Observe(now, o).0;
            JobFuel(seen) + (if Accepts(m, o) then 1 else 0) <= JobFuel(m)
  {
    ObservedReports(m, now, o);
    if o.Ran? && Accepts(m, o) {
      RunBurns(m.cfg, m.job.value, o.outcomes);
    } else if o.GaveAway? && Accepts(m, o) {
      GiveAwayBurns(m.cfg, m.job.value, now, o.results);
    } else {
      HeadersReport(m.job.value, m.Observe(now, o).0.job.value);
      FuelNeverGrows(m.job.value.Headers(), m.Observe(now, o).0.job.value.Headers(), m.cfg.MaxAttempts());
    }
  }

  function Costs(m: DeciderState, e: Event): nat
    requires m.WellFormed() && ValidObservation(e.o)
  {
    (if Accepts(m, e.o) then 1 else 0) + if IssuesAt(m, e) then 1 else 0
  }

  lemma AdvancedBurns(m: DeciderState, now: Time)
    requires Inv(m, now) && m.job.Some? && !EndsNow(m, now)
    ensures var m' := m.AdvanceTime(now).0;
            JobFuel(m') + (if Outstanding(m) == NO_ISSUE && Outstanding(m') != NO_ISSUE then 1 else 0) <= JobFuel(m)
  {
    FlightStep(m, now);
    InFlightBurns(m, now);
    UpdateKeepsOutstanding(m, now);
    BusyIsOutstanding(m.(job := Some(m.UpdatedJob(now))));
    BusyIsOutstanding(m.AdvanceTime(now).0);
  }

  /** Whatever is observed, each answer accepted and each issue made costs the job some of what it
      can still do, and nothing gives any back. */
  lemma EveryStepCosts(m: DeciderState, before: Time, e: Event)
    requires Inv(m, before) && before <= e.now && ValidObservation(e.o) && m.job.Some? && Survives(m, e)
    ensures var m' := m.Decide(e.now, e.o).0;
            m'.job.Some? && JobFuel(m') + Costs(m, e) <= JobFuel(m)
  {
    InvLater(m, before, e.now);
    ObserveKeepsInv(m, e.now, e.o);
    ObservedBurns(m, e.now, e.o);
    var seen := m.Observe(e.now, e.o).0;
    FlightStep(seen, e.now);
    AdvancedBurns(seen, e.now);
  }

  // When the job was last issued or answered.

  /** Nothing of the job was issued or sent after at. */
  ghost predicate NothingAfter(j: JobState, at: Time) {
    && (forall i | 0 <= i < |j.commands| :: j.commands[i].header.lastIssued <= at)
    && (forall i | 0 <= i < |j.assignments| :: j.assignments[i].header.lastIssued <= at)
    && (forall i | 0 <= i < |j.assignments| && j.assignments[i].header.status.AwaitingArrival? ::
          j.assignments[i].sentAt <= at)
  }

  lemma BegunIsBefore(m: DeciderState, now: Time)
    requires Inv(m, now) && m.job.Some?
    ensures NothingAfter(m.job.value, now)
  {
  }

  /** A result that answers nothing, and any other observation, leaves the tasks as they are. */
  lemma UnansweredStays(m: DeciderState, now: Time, o: Observation)
    requires m.WellFormed() && ValidObservation(o) && m.job.Some? && !Accepts(m, o)
    ensures m.Observe(now, o).0.job == m.job
  {
    var j := m.job.value;
    if o.Ran? {
      assert j.ReportRun(o.outcomes).commands == j.commands;
    } else if o.GaveAway? {
      assert j.ReportGiveAway(now, o.results).assignments == j.assignments;
    }
  }

  lemma UpdateKeepsBefore(m: DeciderState, now: Time, at: Time)
    requires Inv(m, now) && m.job.Some? && NothingAfter(m.job.value, at)
    ensures NothingAfter(m.UpdatedJob(now), at)
  {
    UpdatedJobIs(m, now);
    var j, j' := m.job.value, m.UpdatedJob(now);
    forall i | 0 <= i < |j'.assignments|
      ensures j'.assignments[i].header.lastIssued <= at
      ensures j'.assignments[i].header.status.AwaitingArrival? ==> j'.assignments[i].sentAt <= at
    {
      assert j.assignments[i].header.lastIssued <= at;
    }
  }

  /** Advancing without an issue issues and sends nothing. */
  lemma IdleStaysBefore(m: DeciderState, now: Time, at: Time)
    requires Inv(m, now) && m.job.Some? && !EndsNow(m, now) && NothingAfter(m.job.value, at)
    requires Outstanding(m) != NO_ISSUE || Outstanding(m.AdvanceTime(now).0) == NO_ISSUE
    ensures NothingAfter(m.AdvanceTime(now).0.job.value, at)
  {
    FlightStep(m, now);
    InFlightBurns(m, now);
    UpdateKeepsBefore(m, now, at);
    UpdateKeepsOutstanding(m, now);
    BusyIsOutstanding(m.(job := Some(m.UpdatedJob(now))));
    BusyIsOutstanding(m.AdvanceTime(now).0);
  }

  lemma StepKeepsBefore(m: DeciderState, before: Time, e: Event, at: Time)
    requires Inv(m, before) && before <= e.now && ValidObservation(e.o) && m.job.Some? && Survives(m, e)
    requires NothingAfter(m.job.value, at)
    ensures var m' := m.Decide(e.now, e.o).0;
            m'.job.Some? && Inv(m', e.now) && NothingAfter(m'.job.value, if Costs(m, e) > 0 then e.now else at)
  {
    InvLater(m, before, e.now);
    ObserveKeepsInv(m, e.now, e.o);
    var seen := m.Observe(e.now, e.o).0;
    FlightStep(seen, e.now);
    if Costs(m, e) > 0 {
      BegunIsBefore(m.Decide(e.now, e.o).0, e.now);
    } else {
      UnansweredStays(m, e.now, e.o);
      IdleStaysBefore(seen, e.now, at);
    }
  }

  /** How long a job with no result awaited can be left with nothing to do. */
  function Patience(cfg: Config): Time {
    if cfg.arrivalWindow < cfg.retrySpacing then cfg.retrySpacing else cfg.arrivalWindow
  }

  /** Past every window and spacing, a job that is not over has an issue outstanding. */
  lemma PatienceEnds(m: DeciderState, now: Time, at: Time)
    requires Inv(m, now) && m.job.Some? && NothingAfter(m.job.value, at) && now >= at + Patience(m.cfg)
    ensures EndsNow(m, now) || Outstanding(m.AdvanceTime(now).0) != NO_ISSUE
  {
    var j := m.UpdatedJob(now);
    UpdateKeepsJob(m, now);
    UpdateKeepsBefore(m, now, at);
    NoneAwaits(m, now, at);
    if !EndsNow(m, now) {
      FlightStep(m, now);
      BusyIsOutstanding(m.AdvanceTime(now).0);
      InFlightBurns(m, now);
      if !InFlight(m, now).Busy() {
        assert j == InFlight(m, now);
        SettledOnceNothingIsDue(m.cfg, j, now, at);
      }
    }
  }

  lemma NoneAwaits(m: DeciderState, now: Time, at: Time)
    requires Inv(m, now) && m.job.Some? && NothingAfter(m.job.value, at) && now >= at + m.cfg.arrivalWindow
    ensures forall i | 0 <= i < |m.UpdatedJob(now).assignments| ::
              !m.UpdatedJob(now).assignments[i].header.status.AwaitingArrival?
  {
    UpdatedJobIs(m, now);
    var j := m.job.value;
    forall i | 0 <= i < |j.assignments|
      ensures !m.UpdatedJob(now).assignments[i].header.status.AwaitingArrival?
    {
      assert j.assignments[i].header.status.AwaitingArrival? ==> j.assignments[i].sentAt <= at;
    }
  }

  lemma SettledOnceNothingIsDue(cfg: Config, j: JobState, now: Time, at: Time)
    requires Begun(j) && NothingAfter(j, at) && now >= at + cfg.retrySpacing && !j.Busy() && NothingDue(cfg, j, now)
    requires forall i | 0 <= i < |j.commands| :: !j.commands[i].header.status.AwaitingArrival?
    requires forall i | 0 <= i < |j.assignments| :: !j.assignments[i].header.status.AwaitingArrival?
    ensures j.Settled(cfg.MaxAttempts())
  {
  }

  lemma StepEndsPatience(m: DeciderState, before: Time, e: Event, at: Time)
    requires Inv(m, before) && before <= e.now && ValidObservation(e.o) && m.job.Some? && !Accepts(m, e.o)
    requires NothingAfter(m.job.value, at) && e.now >= at + Patience(m.cfg)
    ensures EndsNow(m.Observe(e.now, e.o).0, e.now) || Outstanding(m.Decide(e.now, e.o).0) != NO_ISSUE
  {
    InvLater(m, before, e.now);
    ObserveKeepsInv(m, e.now, e.o);
    UnansweredStays(m, e.now, e.o);
    PatienceEnds(m.Observe(e.now, e.o).0, e.now, at);
  }

  /** With no result awaited, the wake comes no later than a window and a spacing after the last
      issue and the last answer. */
  lemma WakeIsNear(m: DeciderState, now: Time, at: Time)
    requires Inv(m, now) && Quiet(m, now) && m.job.Some? && Outstanding(m) == NO_ISSUE
    requires NothingAfter(m.job.value, at)
    ensures m.WakeAt(now).Some? && m.WakeAt(now).value <= at + Patience(m.cfg)
  {
    BusyIsOutstanding(m);
    EarliestFacts(now, m.Candidates(now));
    var deadline := JobDeadlineAhead(m, now);
    assert deadline in m.Candidates(now);
    DeadlineIsNear(m.cfg, m.job.value, at, deadline);
  }

  lemma DeadlineIsNear(cfg: Config, j: JobState, at: Time, deadline: Time)
    requires NothingAfter(j, at) && IsDeadline(cfg, j, deadline)
    ensures deadline <= at + Patience(cfg)
  {
  }

  // Over any run.

  /** One job lasts from the k-th observation to the last. */
  ghost predicate InFlightSince(cfg: Config, handled: Option<Handled>, events: seq<Event>, k: nat)
    requires ValidStart(cfg, handled) && ValidRun(events) && k <= |events|
    decreases |events|
  {
    if k == |events| then events != [] && RunOf(cfg, handled, events).job.Some?
    else
      LastStep(cfg, handled, events);
      var init, e := events[..|events| - 1], events[|events| - 1];
      InFlightSince(cfg, handled, init, k) && Survives(RunOf(cfg, handled, init), e)
  }

  /** How many answers it accepted and issues it made since. */
  ghost function Steps(cfg: Config, handled: Option<Handled>, events: seq<Event>, k: nat): nat
    requires ValidStart(cfg, handled) && ValidRun(events) && k <= |events|
    decreases |events|
  {
    if k == |events| then 0
    else
      LastStep(cfg, handled, events);
      var init, e := events[..|events| - 1], events[|events| - 1];
      Steps(cfg, handled, init, k) + Costs(RunOf(cfg, handled, init), e)
  }

  /** When it last made an issue or accepted an answer, or else when it was first looked at. */
  ghost function LastStir(cfg: Config, handled: Option<Handled>, events: seq<Event>, k: nat): Time
    requires ValidStart(cfg, handled) && ValidRun(events) && k <= |events|
    decreases |events|
  {
    if k == |events| then End(events)
    else
      LastStep(cfg, handled, events);
      var init, e := events[..|events| - 1], events[|events| - 1];
      if Costs(RunOf(cfg, handled, init), e) > 0 then e.now else LastStir(cfg, handled, init, k)
  }

  lemma {:induction false} FlightHasJob(cfg: Config, handled: Option<Handled>, events: seq<Event>, k: nat)
    requires ValidStart(cfg, handled) && ValidRun(events) && k <= |events|
    requires InFlightSince(cfg, handled, events, k)
    ensures RunOf(cfg, handled, events).job.Some? && events != []
    decreases |events|
  {
    if k < |events| {
      LastStep(cfg, handled, events);
      var init, e := events[..|events| - 1], events[|events| - 1];
      FlightHasJob(cfg, handled, init, k);
      EveryStepCosts(RunOf(cfg, handled, init), e.now, e);
    }
  }

  /** The decider after the first k observations. */
  ghost function Began(cfg: Config, handled: Option<Handled>, events: seq<Event>, k: nat): DeciderState
    requires ValidStart(cfg, handled) && ValidRun(events) && k <= |events|
    decreases |events|
  {
    if k == |events| then RunOf(cfg, handled, events)
    else
      RunPrefix(events);
      Began(cfg, handled, events[..|events| - 1], k)
  }

  /** Began is the run's own state at that point. */
  lemma {:induction false} BeganIs(cfg: Config, handled: Option<Handled>, events: seq<Event>, k: nat)
    requires ValidStart(cfg, handled) && ValidRun(events) && k <= |events| && ValidRun(events[..k])
    ensures Began(cfg, handled, events, k) == RunOf(cfg, handled, events[..k])
    decreases |events|
  {
    if k == |events| {
      assert events[..k] == events;
    } else {
      assert events[..|events| - 1][..k] == events[..k];
      BeganIs(cfg, handled, events[..|events| - 1], k);
    }
  }

  lemma {:induction false} BeganWithJob(cfg: Config, handled: Option<Handled>, events: seq<Event>, k: nat)
    requires ValidStart(cfg, handled) && ValidRun(events) && k <= |events|
    requires InFlightSince(cfg, handled, events, k)
    ensures var m := Began(cfg, handled, events, k);
            m.cfg == cfg && m.job.Some? && Inv(m, End(events))
    decreases |events|
  {
    if k < |events| {
      LastStep(cfg, handled, events);
      var init, e := events[..|events| - 1], events[|events| - 1];
      FlightHasJob(cfg, handled, init, k);
      BeganWithJob(cfg, handled, init, k);
      InvLater(Began(cfg, handled, init, k), End(init), e.now);
    }
  }

  /** What the job could still do then. */
  ghost function FuelSince(cfg: Config, handled: Option<Handled>, events: seq<Event>, k: nat): nat
    requires ValidStart(cfg, handled) && ValidRun(events) && k <= |events|
  {
    JobFuel(Began(cfg, handled, events, k))
  }

  lemma {:induction false} FlightBurns(cfg: Config, handled: Option<Handled>, events: seq<Event>, k: nat)
    requires ValidStart(cfg, handled) && ValidRun(events) && k <= |events|
    requires InFlightSince(cfg, handled, events, k)
    ensures JobFuel(RunOf(cfg, handled, events)) + Steps(cfg, handled, events, k) <= FuelSince(cfg, handled, events, k)
    decreases |events|
  {
    if k < |events| {
      LastStep(cfg, handled, events);
      var init, e := events[..|events| - 1], events[|events| - 1];
      FlightBurns(cfg, handled, init, k);
      FlightHasJob(cfg, handled, init, k);
      EveryStepCosts(RunOf(cfg, handled, init), e.now, e);
    }
  }

  lemma {:induction false} FlightStirs(cfg: Config, handled: Option<Handled>, events: seq<Event>, k: nat)
    requires ValidStart(cfg, handled) && ValidRun(events) && k <= |events|
    requires InFlightSince(cfg, handled, events, k)
    ensures var m := RunOf(cfg, handled, events);
            m.job.Some? && NothingAfter(m.job.value, LastStir(cfg, handled, events, k))
    decreases |events|
  {
    FlightHasJob(cfg, handled, events, k);
    if k == |events| {
      BegunIsBefore(RunOf(cfg, handled, events), End(events));
    } else {
      LastStep(cfg, handled, events);
      var init, e := events[..|events| - 1], events[|events| - 1];
      FlightStirs(cfg, handled, init, k);
      StepKeepsBefore(RunOf(cfg, handled, init), e.now, e, LastStir(cfg, handled, init, k));
    }
  }

  /** most, n times. */
  function Times(most: nat, n: nat): nat {
    if n == 0 then 0 else Times(most, n - 1) + most
  }

  lemma {:induction false} FuelAtMost(headers: seq<Header>, maxAttempts: nat)
    requires maxAttempts >= 1
    requires forall i | 0 <= i < |headers| :: !headers[i].status.Pending? && 1 <= headers[i].attempts <= maxAttempts
    ensures Fuel(headers, maxAttempts) <= Times(2 * maxAttempts - 1, |headers|)
  {
    if headers != [] {
      FuelAtMost(headers[..|headers| - 1], maxAttempts);
    }
  }

  lemma BegunHeaders(j: JobState, maxAttempts: nat, now: Time)
    requires Begun(j)
    requires forall i | 0 <= i < |j.commands| :: HeaderOk(j.commands[i].header, maxAttempts, now)
    requires forall i | 0 <= i < |j.assignments| :: HeaderOk(j.assignments[i].header, maxAttempts, now)
    ensures forall i | 0 <= i < |j.Headers()| ::
              !j.Headers()[i].status.Pending? && 1 <= j.Headers()[i].attempts <= maxAttempts
  {
  }

  function MostSteps(m: DeciderState): nat
    requires m.job.Some?
  {
    Times(2 * m.cfg.MaxAttempts() - 1, |m.job.value.Headers()|)
  }

  /** What a job can still do: at most one answer and one issue for each attempt of each task, less
      the first issue of each. */
  lemma FuelIsBounded(m: DeciderState, now: Time)
    requires Inv(m, now) && m.job.Some?
    ensures JobFuel(m) <= MostSteps(m)
  {
    BegunHeaders(m.job.value, m.cfg.MaxAttempts(), now);
    FuelAtMost(m.job.value.Headers(), m.cfg.MaxAttempts());
  }

  lemma StartIsBounded(cfg: Config, handled: Option<Handled>, events: seq<Event>, k: nat)
    requires ValidStart(cfg, handled) && ValidRun(events) && k <= |events|
    requires InFlightSince(cfg, handled, events, k)
    ensures Began(cfg, handled, events, k).job.Some?
    ensures FuelSince(cfg, handled, events, k) <= MostSteps(Began(cfg, handled, events, k))
  {
    BeganWithJob(cfg, handled, events, k);
    FuelIsBounded(Began(cfg, handled, events, k), End(events));
  }

  /** Whatever is observed while a job is in flight, states, attaches and late results included, it
      makes only so many issues and accepts only so many answers: less than two for each attempt of
      each of its tasks. */
  lemma BoundedSteps(cfg: Config, handled: Option<Handled>, events: seq<Event>, k: nat)
    requires ValidStart(cfg, handled) && ValidRun(events) && k <= |events|
    requires InFlightSince(cfg, handled, events, k)
    ensures Began(cfg, handled, events, k).job.Some?
    ensures Steps(cfg, handled, events, k) <= MostSteps(Began(cfg, handled, events, k))
  {
    FlightBurns(cfg, handled, events, k);
    StartIsBounded(cfg, handled, events, k);
  }

  /** Whatever was observed while a job was in flight, a decision that comes a window and a spacing
      after its last issue and its last answer leaves it over or with an issue outstanding. */
  lemma OverOrIssued(cfg: Config, handled: Option<Handled>, events: seq<Event>, k: nat, e: Event)
    requires ValidStart(cfg, handled) && ValidRun(events) && k <= |events|
    requires InFlightSince(cfg, handled, events, k)
    requires End(events) <= e.now && ValidObservation(e.o) && !Accepts(RunOf(cfg, handled, events), e.o)
    requires e.now >= LastStir(cfg, handled, events, k) + Patience(cfg)
    ensures var m := RunOf(cfg, handled, events);
            EndsNow(m.Observe(e.now, e.o).0, e.now) || Outstanding(m.Decide(e.now, e.o).0) != NO_ISSUE
  {
    FlightStirs(cfg, handled, events, k);
    FlightHasJob(cfg, handled, events, k);
    StepEndsPatience(RunOf(cfg, handled, events), End(events), e, LastStir(cfg, handled, events, k));
  }

  // Bounded time.

  /** While the job is in flight a result comes within wait of the last issue or answer and, when
      none is awaited, the decider is called within lag of its wake. */
  ghost predicate Prompt(cfg: Config, handled: Option<Handled>, events: seq<Event>, k: nat, wait: Time, lag: Time)
    requires ValidStart(cfg, handled) && ValidRun(events) && k <= |events|
    decreases |events|
  {
    k == |events|
    || (LastStep(cfg, handled, events);
        var init, e := events[..|events| - 1], events[|events| - 1];
        var m := RunOf(cfg, handled, init);
        && Prompt(cfg, handled, init, k, wait, lag)
        && (Outstanding(m) != NO_ISSUE ==> e.now <= LastStir(cfg, handled, init, k) + wait)
        && (Outstanding(m) == NO_ISSUE && m.WakeAt(End(init)).Some? ==> e.now <= m.WakeAt(End(init)).value + lag))
  }

  /** When the first k observations were over. */
  function Since(events: seq<Event>, k: nat): Time
    requires k <= |events|
  {
    if k == 0 then 0 else events[k - 1].now
  }

  /** The longest a job in flight can go without an issue or an answer. */
  function Span(cfg: Config, wait: Time, lag: Time): Time {
    if wait < Patience(cfg) + lag then Patience(cfg) + lag else wait
  }

  /** n spans. */
  function Spans(span: Time, n: nat): Time {
    if n == 0 then 0 else Spans(span, n - 1) + span
  }

  lemma {:induction false} SpansGrow(span: Time, n: nat, more: nat)
    requires span >= 0 && n <= more
    ensures Spans(span, n) <= Spans(span, more)
  {
    if n < more {
      SpansGrow(span, n, more - 1);
    }
  }

  lemma RunIsQuiet(cfg: Config, handled: Option<Handled>, events: seq<Event>)
    requires ValidStart(cfg, handled) && ValidRun(events) && events != []
    ensures Quiet(RunOf(cfg, handled, events), End(events))
  {
    LastStep(cfg, handled, events);
    var e := events[|events| - 1];
    var m := RunOf(cfg, handled, events[..|events| - 1]);
    ObserveKeepsInv(m, e.now, e.o);
    AdvancingEndsQuiet(m.Observe(e.now, e.o).0, e.now);
  }

  /** The next decision comes within a span of the last issue or answer. */
  lemma NextIsSoon(cfg: Config, handled: Option<Handled>, events: seq<Event>, k: nat, e: Event, wait: Time, lag: Time)
    requires ValidStart(cfg, handled) && ValidRun(events) && k <= |events|
    requires InFlightSince(cfg, handled, events, k) && End(events) <= e.now
    requires var m := RunOf(cfg, handled, events);
             && (Outstanding(m) != NO_ISSUE ==> e.now <= LastStir(cfg, handled, events, k) + wait)
             && (Outstanding(m) == NO_ISSUE && m.WakeAt(End(events)).Some? ==>
                   e.now <= m.WakeAt(End(events)).value + lag)
    ensures e.now <= LastStir(cfg, handled, events, k) + Span(cfg, wait, lag)
  {
    FlightStirs(cfg, handled, events, k);
    FlightHasJob(cfg, handled, events, k);
    RunIsQuiet(cfg, handled, events);
    var m := RunOf(cfg, handled, events);
    if Outstanding(m) == NO_ISSUE {
      WakeIsNear(m, End(events), LastStir(cfg, handled, events, k));
    }
  }

  lemma StirIsClose(base: Time, stir: Time, now: Time, span: Time, steps: nat, more: nat)
    requires span >= 0 && now <= stir + span && stir <= base + Spans(span, steps) && steps < more
    ensures now <= base + Spans(span, more)
  {
    SpansGrow(span, steps + 1, more);
  }

  /** What the last observation does to the count of steps and the last stir. */
  lemma LastObservation(cfg: Config, handled: Option<Handled>, events: seq<Event>, k: nat, wait: Time, lag: Time)
    requires ValidStart(cfg, handled) && ValidRun(events) && k < |events|
    requires InFlightSince(cfg, handled, events, k) && Prompt(cfg, handled, events, k, wait, lag)
    ensures var init, e := events[..|events| - 1], events[|events| - 1];
            && ValidRun(init) && InFlightSince(cfg, handled, init, k) && Prompt(cfg, handled, init, k, wait, lag)
            && e.now <= LastStir(cfg, handled, init, k) + Span(cfg, wait, lag)
            && (|| (Steps(cfg, handled, events, k) > Steps(cfg, handled, init, k)
                    && LastStir(cfg, handled, events, k) == e.now)
                || (Steps(cfg, handled, events, k) == Steps(cfg, handled, init, k)
                    && LastStir(cfg, handled, events, k) == LastStir(cfg, handled, init, k)))
  {
    LastStep(cfg, handled, events);
    var init, e := events[..|events| - 1], events[|events| - 1];
    NextIsSoon(cfg, handled, init, k, e, wait, lag);
  }

  lemma SinceFront(events: seq<Event>, k: nat)
    requires k < |events|
    ensures Since(events[..|events| - 1], k) == Since(events, k)
  {
  }

  lemma StirStaysClose(cfg: Config, handled: Option<Handled>, events: seq<Event>, k: nat, wait: Time, lag: Time)
    requires ValidStart(cfg, handled) && ValidRun(events) && k < |events| && wait >= 0 && lag >= 0
    requires InFlightSince(cfg, handled, events, k) && Prompt(cfg, handled, events, k, wait, lag)
    requires var init := events[..|events| - 1];
             && ValidRun(init)
             && LastStir(cfg, handled, init, k)
             <= Since(events, k) + Spans(Span(cfg, wait, lag), Steps(cfg, handled, init, k))
    ensures LastStir(cfg, handled, events, k)
         <= Since(events, k) + Spans(Span(cfg, wait, lag), Steps(cfg, handled, events, k))
  {
    var init, e := events[..|events| - 1], events[|events| - 1];
    LastObservation(cfg, handled, events, k, wait, lag);
    var steps, more := Steps(cfg, handled, init, k), Steps(cfg, handled, events, k);
    if more > steps {
      StirIsClose(Since(events, k), LastStir(cfg, handled, init, k), e.now, Span(cfg, wait, lag), steps, more);
    }
  }

  lemma {:induction false} StirsAreClose(cfg: Config, handled: Option<Handled>, events: seq<Event>, k: nat,
                                         wait: Time, lag: Time)
    requires ValidStart(cfg, handled) && ValidRun(events) && k <= |events| && wait >= 0 && lag >= 0
    requires InFlightSince(cfg, handled, events, k) && Prompt(cfg, handled, events, k, wait, lag)
    ensures LastStir(cfg, handled, events, k)
         <= Since(events, k) + Spans(Span(cfg, wait, lag), Steps(cfg, handled, events, k))
    decreases |events|
  {
    if k < |events| {
      LastStep(cfg, handled, events);
      StirsAreClose(cfg, handled, events[..|events| - 1], k, wait, lag);
      SinceFront(events, k);
      StirStaysClose(cfg, handled, events, k, wait, lag);
    }
  }

  lemma EndIsClose(cfg: Config, handled: Option<Handled>, events: seq<Event>, k: nat, wait: Time, lag: Time)
    requires ValidStart(cfg, handled) && ValidRun(events) && k <= |events| && wait >= 0 && lag >= 0
    requires InFlightSince(cfg, handled, events, k) && Prompt(cfg, handled, events, k, wait, lag)
    ensures End(events) <= LastStir(cfg, handled, events, k) + Span(cfg, wait, lag)
  {
    if k < |events| {
      LastObservation(cfg, handled, events, k, wait, lag);
    }
  }

  lemma EndsInSteps(cfg: Config, handled: Option<Handled>, events: seq<Event>, k: nat, wait: Time, lag: Time, most: nat)
    requires ValidStart(cfg, handled) && ValidRun(events) && k <= |events| && wait >= 0 && lag >= 0
    requires InFlightSince(cfg, handled, events, k) && Prompt(cfg, handled, events, k, wait, lag)
    requires Steps(cfg, handled, events, k) < most
    ensures End(events) <= Since(events, k) + Spans(Span(cfg, wait, lag), most)
  {
    StirsAreClose(cfg, handled, events, k, wait, lag);
    EndIsClose(cfg, handled, events, k, wait, lag);
    StirIsClose(Since(events, k), LastStir(cfg, handled, events, k), End(events), Span(cfg, wait, lag),
                Steps(cfg, handled, events, k), most);
  }

  /** A job ends in bounded time, whatever else is observed: answered within wait and called within
      lag of its wakes, it is in flight for no longer than one span for each step it could take, and
      one more. */
  lemma EndsInTime(cfg: Config, handled: Option<Handled>, events: seq<Event>, k: nat, wait: Time, lag: Time, most: nat)
    requires ValidStart(cfg, handled) && ValidRun(events) && k <= |events| && wait >= 0 && lag >= 0
    requires InFlightSince(cfg, handled, events, k) && Prompt(cfg, handled, events, k, wait, lag)
    requires Began(cfg, handled, events, k).job.Some? && most == MostSteps(Began(cfg, handled, events, k)) + 1
    ensures End(events) <= Since(events, k) + Spans(Span(cfg, wait, lag), most)
  {
    BoundedSteps(cfg, handled, events, k);
    EndsInSteps(cfg, handled, events, k, wait, lag, most);
  }
}
