/** When the decider needs to be called again: before the wake it returned nothing changes,
    and the wakes run out. */
module Waking {
  import opened Options
  import opened State
  import opened Policy
  import opened RateLimiting
  import opened Jobs
  import opened Deciding
  import opened DeciderInvariant

  ghost predicate NothingDue(cfg: Config, j: JobState, now: Time) {
    && (forall i | 0 <= i < |j.commands| :: !j.commands[i].header.Due(now, cfg.MaxAttempts(), cfg.retrySpacing))
    && (forall i | 0 <= i < |j.assignments| :: !j.assignments[i].header.Due(now, cfg.MaxAttempts(), cfg.retrySpacing))
  }

  /** There is nothing to do at now. */
  ghost predicate Quiet(m: DeciderState, now: Time)
    requires m.WellFormed()
  {
    if m.job.Some? then
      && m.UpdatedJob(now) == m.job.value
      && (m.job.value.Busy()
          || (!m.job.value.Settled(m.cfg.MaxAttempts()) && NothingDue(m.cfg, m.job.value, now)))
    else
      !m.ClaimDue(now) && (m.latest.Some? ==> m.Reconcile(now).None?)
  }

  lemma NothingDueIssuesNothing(cfg: Config, j: JobState, now: Time)
    requires !j.Busy() && NothingDue(cfg, j, now)
    ensures j.IssueTasks(now, cfg.MaxAttempts(), cfg.retrySpacing) == j
    ensures j.DueDecision(now, cfg.MaxAttempts(), cfg.retrySpacing).None?
  {
    DueCommandsAreIssued(j.commands, j.commands, now, cfg.MaxAttempts(), cfg.retrySpacing);
    DueAssignmentsAreIssued(j.assignments, j.assignments, now, cfg.MaxAttempts(), cfg.retrySpacing);
    IssuedCommandsFacts(j.commands);
    IssuedAssignmentsFacts(j.assignments);
    var j' := j.IssueTasks(now, cfg.MaxAttempts(), cfg.retrySpacing);
    assert j'.commands == j.commands && j'.assignments == j.assignments;
  }

  lemma QuietDoesNothing(m: DeciderState, now: Time)
    requires m.WellFormed() && Quiet(m, now)
    ensures m.AdvanceTime(now) == (m, [])
  {
    AdvanceTimeUnfolds(m, now);
    if m.job.Some? && !m.job.value.Busy() {
      NothingDueIssuesNothing(m.cfg, m.job.value, now);
    }
  }

  lemma QuietDecidesNothing(m: DeciderState, now: Time)
    requires m.WellFormed() && Quiet(m, now)
    ensures m.Decide(now, Nothing) == (m, [])
  {
    QuietDoesNothing(m, now);
    var none: seq<Decision> := [];
    assert none + none == none;
  }

  // Advancing ends quiet.

  /** Bringing a task up to date twice, or issuing it in between, changes nothing more. */
  lemma UpdateTwice(t: AssignmentTask, s: ServerState, current: map<AssignmentKey, Assignment>, now: Time,
                    cfg: Config)
    requires !t.header.status.Pending?
    ensures var t' := UpdatedTask(t, s, current, now, cfg.arrivalWindow);
            var i := t'.(header := t'.header.IssueIfDue(now, cfg.MaxAttempts(), cfg.retrySpacing));
            && !t'.StopsNotLive(s, current) && UpdatedTask(t', s, current, now, cfg.arrivalWindow) == t'
            && !i.StopsNotLive(s, current) && UpdatedTask(i, s, current, now, cfg.arrivalWindow) == i
  {
  }

  /** So does issuing a task just built from that state. */
  lemma BuiltTaskStays(m: DeciderState, now: Time, t: AssignmentTask)
    requires m.WellFormed() && m.latest.Some? && t in GiveAwayTasks(m.PendingAssignments(now))
    ensures var s, current := m.latest.value, ByKey(m.latest.value.assignments);
            var i := t.(header := t.header.IssueIfDue(now, m.cfg.MaxAttempts(), m.cfg.retrySpacing));
            !i.StopsNotLive(s, current) && UpdatedTask(i, s, current, now, m.cfg.arrivalWindow) == i
  {
    BuiltTaskIsOk(m, now, t);
    ByKeyMembers(m.latest.value.assignments);
  }

  /** What a turn that stops leaves of the job in flight. */
  function InFlight(m: DeciderState, now: Time): JobState
    requires m.job.Some?
  {
    var j := m.UpdatedJob(now);
    if j.Busy() then j else j.IssueTasks(now, m.cfg.MaxAttempts(), m.cfg.retrySpacing)
  }

  lemma StoppedTask(m: DeciderState, now: Time, i: nat)
    requires Between(m, now) && m.job.Some? && i < |m.UpdatedJob(now).assignments|
    ensures i < |InFlight(m, now).assignments|
    ensures var s, current, t := m.latest.value, ByKey(m.latest.value.assignments), InFlight(m, now).assignments[i];
            UpdatedTask(t, s, current, now, m.cfg.arrivalWindow) == t && !t.StopsNotLive(s, current)
  {
    UpdatedJobIs(m, now);
    if m.JustBuilt(now) {
      FreshJobIsUpToDate(m, now);
      BuiltIsOk(m, now);
      BuiltTaskStays(m, now, m.UpdatedJob(now).assignments[i]);
      FreshTaskStays(m, now, m.UpdatedJob(now).assignments[i]);
    } else {
      UpdateTwice(m.job.value.assignments[i], m.latest.value, ByKey(m.latest.value.assignments), now, m.cfg);
    }
  }

  lemma StoppedCommand(m: DeciderState, now: Time, i: nat)
    requires Between(m, now) && m.job.Some? && i < |m.UpdatedJob(now).commands|
    ensures i < |InFlight(m, now).commands|
    ensures var expired := m.job.value.record.CommandsExpired(m.latest.value, m.cfg.id);
            var h := InFlight(m, now).commands[i].header;
            expired.Some? ==> h.Drop(expired.value) == h
  {
    UpdatedJobIs(m, now);
    if m.JustBuilt(now) {
      FreshJobIsUpToDate(m, now);
    }
  }

  /** The job a stopping turn leaves is up to date. */
  lemma StoppedIsUpToDate(m: DeciderState, m': DeciderState, now: Time)
    requires Between(m, now) && m.job.Some? && m' == m.(job := Some(InFlight(m, now))) && m'.WellFormed()
    ensures m'.UpdatedJob(now) == m'.job.value
  {
    var s, current, j' := m.latest.value, ByKey(m.latest.value.assignments), m'.job.value;
    UpdatedJobIs(m, now);
    UpdatedJobIs(m', now);
    forall i | 0 <= i < |j'.assignments|
      ensures m'.UpdatedJob(now).assignments[i] == j'.assignments[i] && !j'.assignments[i].StopsNotLive(s, current)
    {
      StoppedTask(m, now, i);
    }
    assert NotLiveKeys(j'.assignments, s, current) == {};
    forall i | 0 <= i < |j'.commands|
      ensures m'.UpdatedJob(now).commands[i] == j'.commands[i]
    {
      StoppedCommand(m, now, i);
    }
    assert m'.UpdatedJob(now).assignments == j'.assignments && m'.UpdatedJob(now).commands == j'.commands;
    assert m'.UpdatedJob(now).record.seqs == j'.record.seqs;
  }

  lemma BusyOnceIssued(cfg: Config, j: JobState, now: Time)
    requires !j.Busy()
    ensures var j' := j.IssueTasks(now, cfg.MaxAttempts(), cfg.retrySpacing);
            j'.Busy() || (j' == j && NothingDue(cfg, j, now))
  {
    var j' := j.IssueTasks(now, cfg.MaxAttempts(), cfg.retrySpacing);
    if !j'.Busy() {
      forall i | 0 <= i < |j.commands|
        ensures !j.commands[i].header.Due(now, cfg.MaxAttempts(), cfg.retrySpacing)
      {
        assert !j'.commands[i].header.status.Issued?;
      }
      forall i | 0 <= i < |j.assignments|
        ensures !j.assignments[i].header.Due(now, cfg.MaxAttempts(), cfg.retrySpacing)
      {
        assert !j'.assignments[i].header.status.Issued?;
      }
      NothingDueIssuesNothing(cfg, j, now);
    }
  }

  lemma StoppedIsQuiet(m: DeciderState, now: Time)
    requires Between(m, now) && m.TakeTurn(now).stop
    ensures m.TakeTurn(now).m.WellFormed() && Quiet(m.TakeTurn(now).m, now)
  {
    TurnKeepsWellFormed(m, now);
    var m' := m.TakeTurn(now).m;
    if m.job.Some? {
      var j := m.UpdatedJob(now);
      assert m'.job == Some(InFlight(m, now));
      assert !j.Busy() ==> !j.Settled(m.cfg.MaxAttempts());
      UpdatedJobIsOk(m, now);
      StoppedIsUpToDate(m, m', now);
      if !j.Busy() {
        BusyOnceIssued(m.cfg, j, now);
      }
    }
  }

  lemma AdvancingEndsQuiet(m: DeciderState, now: Time)
    requires Between(m, now)
    ensures m.AdvanceTime(now).0.WellFormed() && Quiet(m.AdvanceTime(now).0, now)
    decreases m.OldJob(now), m.OpenEdge(), m.UnhandledCount(), m.DueClaim(now), m.JobToBuild()
  {
    AdvanceTimeUnfolds(m, now);
    if m.TakeTurn(now).stop {
      StoppedIsQuiet(m, now);
    } else {
      TurnIssues(m, now);
      TurnDecreases(m, now);
      AdvancingEndsQuiet(m.TakeTurn(now).m, now);
    }
  }

  // Quiet lasts until the wake.

  lemma {:induction false} EarliestFacts(now: Time, times: seq<Time>)
    ensures match EarliestAfter(now, times)
            case None => forall t | t in times :: t <= now
            case Some(first) => first > now && first in times && forall t | t in times :: t <= now || first <= t
  {
    if times != [] {
      var init := times[..|times| - 1];
      EarliestFacts(now, init);
      assert times == init + [times[|times| - 1]];
    }
  }

  lemma {:induction false} ArrivalDeadlineFacts(tasks: seq<AssignmentTask>, window: Time)
    ensures forall i | 0 <= i < |tasks| && tasks[i].header.status.AwaitingArrival? ::
              tasks[i].ArrivalDeadline(window) in ArrivalDeadlines(tasks, window)
    ensures forall at | at in ArrivalDeadlines(tasks, window) ::
              exists i :: 0 <= i < |tasks| && tasks[i].header.status.AwaitingArrival?
                          && tasks[i].ArrivalDeadline(window) == at
  {
    if tasks != [] {
      var n := |tasks| - 1;
      ArrivalDeadlineFacts(tasks[..n], window);
      forall at | at in ArrivalDeadlines(tasks, window)
        ensures exists i :: 0 <= i < |tasks| && tasks[i].header.status.AwaitingArrival?
                            && tasks[i].ArrivalDeadline(window) == at
      {
        if at in ArrivalDeadlines(tasks[..n], window) {
          var i :| 0 <= i < n && tasks[..n][i].header.status.AwaitingArrival?
                   && tasks[..n][i].ArrivalDeadline(window) == at;
          assert tasks[i].ArrivalDeadline(window) == at;
        } else {
          assert tasks[n].ArrivalDeadline(window) == at;
        }
      }
    }
  }

  lemma {:induction false} RetryFacts(headers: seq<Header>, maxAttempts: nat, spacing: Time)
    ensures forall i | 0 <= i < |headers| && headers[i].Retriable(maxAttempts) ::
              headers[i].RetryAt(spacing) in RetryTimes(headers, maxAttempts, spacing)
    ensures forall at | at in RetryTimes(headers, maxAttempts, spacing) ::
              exists i :: 0 <= i < |headers| && headers[i].Retriable(maxAttempts) && headers[i].RetryAt(spacing) == at
  {
    if headers != [] {
      var n := |headers| - 1;
      RetryFacts(headers[..n], maxAttempts, spacing);
      forall at | at in RetryTimes(headers, maxAttempts, spacing)
        ensures exists i :: 0 <= i < |headers| && headers[i].Retriable(maxAttempts) && headers[i].RetryAt(spacing) == at
      {
        if at in RetryTimes(headers[..n], maxAttempts, spacing) {
          var i :| 0 <= i < n && headers[..n][i].Retriable(maxAttempts) && headers[..n][i].RetryAt(spacing) == at;
          assert headers[i].RetryAt(spacing) == at;
        } else {
          assert headers[n].RetryAt(spacing) == at;
        }
      }
    }
  }

  lemma {:induction false} LiftFacts(ps: seq<PendingAssignment>)
    ensures match LimitLifts(ps)
            case None => forall p | p in ps :: !p.verdict.RateLimited?
            case Some(first) =>
              && (exists p :: p in ps && p.verdict == RateLimited(first))
              && forall p | p in ps && p.verdict.RateLimited? :: first <= p.verdict.until
  {
    if ps != [] {
      var init := ps[..|ps| - 1];
      LiftFacts(init);
      assert ps == init + [ps[|ps| - 1]];
    }
  }

  ghost predicate Before(t: Time, wake: Option<Time>) {
    wake.Some? ==> t < wake.value
  }

  /** No candidate falls in (now, t]: the wake at t is the wake at now. */
  lemma SameWake(times: seq<Time>, now: Time, t: Time)
    requires now <= t && Before(t, EarliestAfter(now, times))
    ensures EarliestAfter(t, times) == EarliestAfter(now, times)
  {
    EarliestFacts(now, times);
    EarliestFacts(t, times);
  }

  lemma QuietJobLasts(m: DeciderState, now: Time, t: Time)
    requires m.WellFormed() && m.job.Some? && Quiet(m, now) && now <= t && Before(t, m.WakeAt(now))
    ensures Quiet(m, t)
  {
    var j := m.job.value;
    var times := m.Candidates(now);
    EarliestFacts(now, times);
    ArrivalDeadlineFacts(j.assignments, m.cfg.arrivalWindow);
    RetryFacts(j.Headers(), m.cfg.MaxAttempts(), m.cfg.retrySpacing);
    UpdatedJobIs(m, now);
    UpdatedJobIs(m, t);
    forall i | 0 <= i < |j.assignments|
      ensures m.UpdatedJob(t).assignments[i] == j.assignments[i]
    {
      assert m.UpdatedJob(now).assignments[i] == j.assignments[i];
      if j.assignments[i].header.status.AwaitingArrival? {
        assert j.assignments[i].ArrivalDeadline(m.cfg.arrivalWindow) in times;
      }
    }
    assert m.UpdatedJob(t).assignments == j.assignments;
    assert m.UpdatedJob(t).commands == m.UpdatedJob(now).commands;
    if !j.Busy() {
      forall i | 0 <= i < |j.Headers()|
        ensures !j.Headers()[i].Due(t, m.cfg.MaxAttempts(), m.cfg.retrySpacing)
      {
        var h := j.Headers()[i];
        assert !h.Due(now, m.cfg.MaxAttempts(), m.cfg.retrySpacing);
        if h.Retriable(m.cfg.MaxAttempts()) {
          assert h.RetryAt(m.cfg.retrySpacing) in times;
        }
      }
      forall i | 0 <= i < |j.commands|
        ensures !j.commands[i].header.Due(t, m.cfg.MaxAttempts(), m.cfg.retrySpacing)
      {
        assert j.Headers()[i] == j.commands[i].header;
      }
      forall i | 0 <= i < |j.assignments|
        ensures !j.assignments[i].header.Due(t, m.cfg.MaxAttempts(), m.cfg.retrySpacing)
      {
        assert j.Headers()[|j.commands| + i] == j.assignments[i].header;
      }
    }
  }

  /** Idle and quiet: what is pending waits for its assignee or for the limiter. */
  lemma QuietPending(m: DeciderState, now: Time)
    requires m.WellFormed() && m.job.None? && m.latest.Some? && Quiet(m, now)
    ensures forall p | p in m.PendingAssignments(now) :: p.verdict.NotLive? || p.verdict.RateLimited?
    ensures !m.ActivationEdge(m.latest.value) && !m.DeactivationEdge(m.latest.value)
  {
    ReconcileFacts(m, now);
  }

  ghost predicate HeldUntilWake(until: Option<Time>, wake: Option<Time>) {
    until.Some? && wake.Some? && wake.value <= until.value
  }

  /** The limiter lifts exactly at the time it gives. */
  lemma LiftsExactly(cfg: Config, l: Limits, now: Time, key: AssignmentKey)
    ensures match l.LimitedUntil(cfg, now, key)
            case None => true
            case Some(until) =>
              && until > now && l.LimitedUntil(cfg, until, key).None?
              && forall t | now <= t < until :: l.LimitedUntil(cfg, t, key) == Some(until)
  {
  }

  lemma PendingIsHeld(m: DeciderState, now: Time, a: Assignment)
    requires m.WellFormed() && m.job.None? && m.latest.Some? && Quiet(m, now)
    requires a in m.latest.value.assignments && Unhandled(m.cfg.id, m.handled.value, a)
    requires m.latest.value.IsLive(a.assignee)
    ensures HeldUntilWake(m.limits.LimitedUntil(m.cfg, now, a.Key()), m.WakeAt(now))
  {
    var ps, times := m.PendingAssignments(now), m.Candidates(now);
    PendingFacts(m.cfg, m.handled.value, m.limits, now, m.latest.value, m.latest.value.assignments);
    QuietPending(m, now);
    LiftFacts(ps);
    EarliestFacts(now, times);
    assert PendingAssignment(a, Assess(m.cfg, m.limits, now, m.latest.value, a)) in ps;
    var lifts := LimitLifts(ps).value;
    var p :| p in ps && p.verdict == RateLimited(lifts);
    assert lifts > now;
    assert times == AsSeq(m.ClaimAt()) + [lifts];
    assert times[|times| - 1] == lifts;
  }

  lemma SameAssessment(m: DeciderState, now: Time, t: Time, a: Assignment)
    requires m.WellFormed() && m.job.None? && m.latest.Some? && Quiet(m, now) && now <= t && Before(t, m.WakeAt(now))
    requires a in m.latest.value.assignments && Unhandled(m.cfg.id, m.handled.value, a)
    ensures Assess(m.cfg, m.limits, t, m.latest.value, a) == Assess(m.cfg, m.limits, now, m.latest.value, a)
  {
    if m.latest.value.IsLive(a.assignee) {
      PendingIsHeld(m, now, a);
      LiftsExactly(m.cfg, m.limits, now, a.Key());
    }
  }

  lemma {:induction false} SamePending(m: DeciderState, now: Time, t: Time, assignments: seq<Assignment>)
    requires m.handled.Some? && m.latest.Some?
    requires forall a | a in assignments && Unhandled(m.cfg.id, m.handled.value, a) ::
               Assess(m.cfg, m.limits, t, m.latest.value, a) == Assess(m.cfg, m.limits, now, m.latest.value, a)
    ensures PendingOf(m.cfg, m.handled.value, m.limits, t, m.latest.value, assignments)
         == PendingOf(m.cfg, m.handled.value, m.limits, now, m.latest.value, assignments)
  {
    if assignments != [] {
      SamePending(m, now, t, assignments[..|assignments| - 1]);
    }
  }

  lemma QuietPendingLasts(m: DeciderState, now: Time, t: Time)
    requires m.WellFormed() && m.job.None? && m.latest.Some? && Quiet(m, now) && now <= t && Before(t, m.WakeAt(now))
    ensures m.PendingAssignments(t) == m.PendingAssignments(now)
  {
    forall a | a in m.latest.value.assignments && Unhandled(m.cfg.id, m.handled.value, a)
      ensures Assess(m.cfg, m.limits, t, m.latest.value, a) == Assess(m.cfg, m.limits, now, m.latest.value, a)
    {
      SameAssessment(m, now, t, a);
    }
    SamePending(m, now, t, m.latest.value.assignments);
  }

  lemma QuietIdleLasts(m: DeciderState, now: Time, t: Time)
    requires m.WellFormed() && m.job.None? && Quiet(m, now) && now <= t && Before(t, m.WakeAt(now))
    ensures Quiet(m, t)
    ensures m.latest.Some? ==> m.PendingAssignments(t) == m.PendingAssignments(now)
  {
    EarliestFacts(now, m.Candidates(now));
    if m.ClaimAt().Some? {
      assert m.Candidates(now)[0] == m.ClaimAt().value;
      assert m.ClaimAt().value in m.Candidates(now);
    }
    if m.latest.Some? {
      QuietPending(m, now);
      QuietPendingLasts(m, now, t);
    }
  }

  lemma QuietLasts(m: DeciderState, now: Time, t: Time)
    requires m.WellFormed() && Quiet(m, now) && now <= t && Before(t, m.WakeAt(now))
    ensures Quiet(m, t) && m.WakeAt(t) == m.WakeAt(now)
  {
    if m.job.Some? {
      QuietJobLasts(m, now, t);
    } else {
      QuietIdleLasts(m, now, t);
    }
    SameWake(m.Candidates(now), now, t);
    assert m.Candidates(t) == m.Candidates(now);
  }

  /** The returned wake is exact: it lies ahead, and at any time from now until it, with
      nothing observed, the decider decides nothing, changes nothing and returns it again. */
  lemma WakeIsExact(m: DeciderState, before: Time, now: Time, o: Observation)
    requires Inv(m, before) && before <= now && ValidObservation(o)
    ensures var m' := m.Decide(now, o).0;
            && m'.WellFormed()
            && (m'.WakeAt(now).Some? ==> m'.WakeAt(now).value > now)
            && forall t | now <= t && Before(t, m'.WakeAt(now)) ::
                 m'.Decide(t, Nothing) == (m', []) && m'.WakeAt(t) == m'.WakeAt(now)
  {
    ObserveKeepsInv(m, now, o);
    AdvancingEndsQuiet(m.Observe(now, o).0, now);
    var m' := m.Decide(now, o).0;
    EarliestFacts(now, m'.Candidates(now));
    forall t | now <= t && Before(t, m'.WakeAt(now))
      ensures m'.Decide(t, Nothing) == (m', []) && m'.WakeAt(t) == m'.WakeAt(now)
    {
      QuietLasts(m', now, t);
      QuietDecidesNothing(m', t);
    }
  }

  /** A state seen twice is seen once: shown its newest state once more before the wake, the
      decider decides nothing and stays as it is. */
  lemma SeeingAgainChangesNothing(m: DeciderState, before: Time, now: Time, o: Observation, t: Time)
    requires Inv(m, before) && before <= now && ValidObservation(o)
    requires m.Decide(now, o).0.WellFormed() && m.Decide(now, o).0.latest.Some?
    requires now <= t && Before(t, m.Decide(now, o).0.WakeAt(now))
    ensures var m' := m.Decide(now, o).0;
            ValidState(m'.latest.value) && m'.Decide(t, Seen(m'.latest.value)) == (m', [])
  {
    WakeIsExact(m, before, now, o);
    var m' := m.Decide(now, o).0;
    var again := Seen(m'.latest.value);
    assert m'.Observe(t, again) == (m', []);
    assert m'.Decide(t, again) == m'.Decide(t, Nothing);
  }

  /** No ownership edge is open, no claim is due, and each assignment of another host is
      handled at its seq, or its assignee is not live, or the limiter holds it until a time no
      earlier than the wake. */
  ghost predicate NothingLeft(m: DeciderState, now: Time)
    requires m.WellFormed() && m.latest.Some?
  {
    var s := m.latest.value;
    && !m.ActivationEdge(s) && !m.DeactivationEdge(s) && !m.ClaimDue(now)
    && forall a | a in s.assignments && a.assignee != m.cfg.id ::
         || m.handled.value.Has(a.Key(), a.seqno)
         || !s.IsLive(a.assignee)
         || HeldUntilWake(m.limits.LimitedUntil(m.cfg, now, a.Key()), m.WakeAt(now))
  }

  lemma QuietIdleIsDone(m: DeciderState, now: Time)
    requires m.WellFormed() && m.job.None? && m.latest.Some? && Quiet(m, now)
    ensures NothingLeft(m, now)
  {
    QuietPending(m, now);
    forall a | a in m.latest.value.assignments && Unhandled(m.cfg.id, m.handled.value, a)
               && m.latest.value.IsLive(a.assignee)
      ensures HeldUntilWake(m.limits.LimitedUntil(m.cfg, now, a.Key()), m.WakeAt(now))
    {
      PendingIsHeld(m, now, a);
    }
  }

  /** Idle means nothing left to do. */
  lemma IdleMeansNothingLeft(m: DeciderState, before: Time, now: Time, o: Observation)
    requires Inv(m, before) && before <= now && ValidObservation(o)
    ensures var m' := m.Decide(now, o).0;
            m'.WellFormed() && (m'.job.None? && m'.latest.Some? ==> NothingLeft(m', now))
  {
    ObserveKeepsInv(m, now, o);
    AdvancingEndsQuiet(m.Observe(now, o).0, now);
    var m' := m.Decide(now, o).0;
    if m'.job.None? && m'.latest.Some? {
      QuietIdleIsDone(m', now);
    }
  }

  // Following the wakes alone.

  /** 2 while a job waits to retry or for an arrival, 1 when idle, 0 once a result is awaited. */
  ghost function Stage(m: DeciderState): nat {
    if m.job.None? then 1 else if m.job.value.Busy() then 0 else 2
  }

  ghost function ClaimAhead(m: DeciderState, now: Time): nat {
    if m.ClaimAt().Some? && m.ClaimAt().value > now then 1 else 0
  }

  ghost function CountAwaiting(tasks: seq<AssignmentTask>): nat {
    if tasks == [] then 0
    else CountAwaiting(tasks[..|tasks| - 1]) + if tasks[|tasks| - 1].header.status.AwaitingArrival? then 1 else 0
  }

  ghost function Awaiting(m: DeciderState): nat {
    if m.job.None? then 0 else CountAwaiting(m.job.value.assignments)
  }

  lemma {:induction false} NoMoreAwaiting(before: seq<AssignmentTask>, after: seq<AssignmentTask>)
    requires |before| == |after|
    requires forall i | 0 <= i < |before| ::
               after[i].header.status.AwaitingArrival? ==> before[i].header.status.AwaitingArrival?
    ensures CountAwaiting(after) <= CountAwaiting(before)
  {
    if before != [] {
      var n := |before| - 1;
      NoMoreAwaiting(before[..n], after[..n]);
    }
  }

  lemma {:induction false} FewerAwaiting(before: seq<AssignmentTask>, after: seq<AssignmentTask>, i: nat)
    requires |before| == |after|
    requires forall i | 0 <= i < |before| ::
               after[i].header.status.AwaitingArrival? ==> before[i].header.status.AwaitingArrival?
    requires i < |before| && before[i].header.status.AwaitingArrival? && !after[i].header.status.AwaitingArrival?
    ensures CountAwaiting(after) < CountAwaiting(before)
  {
    var n := |before| - 1;
    if i < n {
      FewerAwaiting(before[..n], after[..n], i);
    } else {
      NoMoreAwaiting(before[..n], after[..n]);
    }
  }

  /** From an idle decider, or a job just built, no job is left waiting: it is issued or over. */
  lemma NoJobLeftWaiting(m: DeciderState, now: Time)
    requires Between(m, now) && (m.job.Some? ==> m.JustBuilt(now))
    ensures Stage(m.AdvanceTime(now).0) <= 1
    ensures m.AdvanceTime(now).0.lastAttach == m.lastAttach
    ensures m.AdvanceTime(now).0.claimedAttach in {m.claimedAttach, m.lastAttach}
    ensures m.AdvanceTime(now).0.cfg == m.cfg
    decreases m.OldJob(now), m.OpenEdge(), m.UnhandledCount(), m.DueClaim(now), m.JobToBuild()
  {
    AdvanceTimeUnfolds(m, now);
    TurnIssues(m, now);
    if m.job.Some? {
      FreshJobIsUpToDate(m, now);
      BuiltIsOk(m, now);
      BuiltIsIssuedOrOver(m, now);
    }
    if !m.TakeTurn(now).stop {
      TurnDecreases(m, now);
      NoJobLeftWaiting(m.TakeTurn(now).m, now);
    }
  }

  lemma BuiltIsIssuedOrOver(m: DeciderState, now: Time)
    requires Between(m, now) && m.JustBuilt(now)
    ensures Stage(m.TakeTurn(now).m) <= 1
    ensures m.job.value.assignments != [] ==> m.TakeTurn(now).stop && Stage(m.TakeTurn(now).m) == 0
  {
    FreshJobIsUpToDate(m, now);
    BuiltIsOk(m, now);
    var j := m.job.value;
    assert !j.Busy();
    BusyOnceIssued(m.cfg, j, now);
    if j.assignments != [] {
      assert j.assignments[0].header == FRESH;
    }
    if j.commands != [] {
      assert j.commands[0].header == FRESH;
    }
  }

  /** How far the wakes can still go, compared lexicographically. */
  ghost predicate Descends(m: DeciderState, now: Time, m': DeciderState, later: Time) {
    || Stage(m') < Stage(m)
    || (Stage(m') == Stage(m)
        && (|| ClaimAhead(m', later) < ClaimAhead(m, now)
            || (ClaimAhead(m', later) == ClaimAhead(m, now) && Awaiting(m') < Awaiting(m))))
  }

  /** Time alone leaves a failed task of a quiet job as it is. */
  lemma RetriableStays(m: DeciderState, now: Time, later: Time, i: nat)
    requires m.WellFormed() && m.job.Some? && Quiet(m, now)
    requires i < |m.job.value.Headers()| && m.job.value.Headers()[i].status.Failed?
    ensures i < |m.UpdatedJob(later).Headers()| && m.UpdatedJob(later).Headers()[i] == m.job.value.Headers()[i]
  {
    UpdatedJobIs(m, now);
    UpdatedJobIs(m, later);
    var j := m.job.value;
    if i >= |j.commands| {
      assert m.UpdatedJob(now).assignments[i - |j.commands|] == j.assignments[i - |j.commands|];
    } else {
      assert m.UpdatedJob(now).commands[i] == j.commands[i];
    }
  }

  lemma TimeAwaitsNoMore(m: DeciderState, later: Time, i: nat)
    requires m.WellFormed() && m.job.Some? && i < |m.job.value.assignments|
    ensures i < |m.UpdatedJob(later).assignments|
    ensures m.UpdatedJob(later).assignments[i].header.status.AwaitingArrival? ==>
              && m.job.value.assignments[i].header.status.AwaitingArrival?
              && m.job.value.assignments[i].ArrivalDeadline(m.cfg.arrivalWindow) > later
  {
    UpdatedJobIs(m, later);
  }

  lemma AwaitingNeverGrows(m: DeciderState, later: Time)
    requires m.WellFormed() && m.job.Some?
    ensures CountAwaiting(m.UpdatedJob(later).assignments) <= CountAwaiting(m.job.value.assignments)
    ensures later in ArrivalDeadlines(m.job.value.assignments, m.cfg.arrivalWindow) ==>
              CountAwaiting(m.UpdatedJob(later).assignments) < CountAwaiting(m.job.value.assignments)
  {
    var before, after := m.job.value.assignments, m.UpdatedJob(later).assignments;
    forall i | 0 <= i < |before|
      ensures i < |after|
      ensures after[i].header.status.AwaitingArrival? ==>
                && before[i].header.status.AwaitingArrival?
                && before[i].ArrivalDeadline(m.cfg.arrivalWindow) > later
    {
      TimeAwaitsNoMore(m, later, i);
    }
    NoMoreAwaiting(before, after);
    if later in ArrivalDeadlines(before, m.cfg.arrivalWindow) {
      ArrivalDeadlineFacts(before, m.cfg.arrivalWindow);
      var i :| 0 <= i < |before| && before[i].header.status.AwaitingArrival?
               && before[i].ArrivalDeadline(m.cfg.arrivalWindow) == later;
      FewerAwaiting(before, after, i);
    }
  }

  lemma RetryComesDue(m: DeciderState, now: Time, w: Time)
    requires m.WellFormed() && m.job.Some? && Quiet(m, now)
    requires w in RetryTimes(m.job.value.Headers(), m.cfg.MaxAttempts(), m.cfg.retrySpacing)
    ensures !NothingDue(m.cfg, m.UpdatedJob(w), w)
  {
    var j, j' := m.job.value, m.UpdatedJob(w);
    RetryFacts(j.Headers(), m.cfg.MaxAttempts(), m.cfg.retrySpacing);
    var i :| 0 <= i < |j.Headers()| && j.Headers()[i].Retriable(m.cfg.MaxAttempts())
             && j.Headers()[i].RetryAt(m.cfg.retrySpacing) == w;
    RetriableStays(m, now, w, i);
    if i < |j'.commands| {
      assert j'.commands[i].header == j.Headers()[i];
    } else {
      assert j'.assignments[i - |j'.commands|].header == j.Headers()[i];
    }
  }

  /** A wake of a job is its claim's, a closing window's or a retry's. */
  lemma JobWakeIs(m: DeciderState, now: Time, w: Time)
    requires m.WellFormed() && m.job.Some? && m.WakeAt(now) == Some(w)
    ensures w > now
    ensures || m.ClaimAt() == Some(w)
            || w in ArrivalDeadlines(m.job.value.assignments, m.cfg.arrivalWindow)
            || (!m.job.value.Busy()
                && w in RetryTimes(m.job.value.Headers(), m.cfg.MaxAttempts(), m.cfg.retrySpacing))
  {
    EarliestFacts(now, m.Candidates(now));
  }

  /** At its wake a job that is still in flight, nothing newly issued, has one window less
      ahead or one claim less. */
  lemma JobWakeDescends(m: DeciderState, now: Time, w: Time, m': DeciderState)
    requires m.WellFormed() && Quiet(m, now) && m.job.Some? && m.WakeAt(now) == Some(w)
    requires m' == m.(job := Some(m.UpdatedJob(w)))
    requires m.job.value.Busy() || NothingDue(m.cfg, m.UpdatedJob(w), w)
    ensures ClaimAhead(m', w) <= ClaimAhead(m, now) && Awaiting(m') <= Awaiting(m)
    ensures ClaimAhead(m', w) < ClaimAhead(m, now) || Awaiting(m') < Awaiting(m)
  {
    JobWakeIs(m, now, w);
    AwaitingNeverGrows(m, w);
    assert m'.ClaimAt() == m.ClaimAt();
    if m.ClaimAt() != Some(w) && w !in ArrivalDeadlines(m.job.value.assignments, m.cfg.arrivalWindow) {
      RetryComesDue(m, now, w);
      assert false;
    }
  }

  lemma BusyWakeDescends(m: DeciderState, now: Time)
    requires Inv(m, now) && Quiet(m, now) && m.job.Some? && m.job.value.Busy() && m.WakeAt(now).Some?
    ensures Descends(m, now, m.AdvanceTime(m.WakeAt(now).value).0, m.WakeAt(now).value)
  {
    var w := m.WakeAt(now).value;
    var m' := m.(job := Some(m.UpdatedJob(w)));
    JobWakeDescends(m, now, w, m');
    AdvanceTimeUnfolds(m, w);
    UpdateKeepsOutstanding(m, w);
    BusyIsOutstanding(m);
    BusyIsOutstanding(m');
    assert m.TakeTurn(w) == Turn(m', [], true);
  }

  lemma EndedWakeDescends(m: DeciderState, w: Time)
    requires Inv(m, w) && m.job.Some? && !m.UpdatedJob(w).Busy() && m.UpdatedJob(w).Settled(m.cfg.MaxAttempts())
    ensures Stage(m.AdvanceTime(w).0) <= 1
  {
    AdvanceTimeUnfolds(m, w);
    assert !m.TakeTurn(w).stop && m.TakeTurn(w).m.job.None?;
    TurnIssues(m, w);
    NoJobLeftWaiting(m.TakeTurn(w).m, w);
  }

  lemma UnsettledWakeDescends(m: DeciderState, now: Time, w: Time)
    requires Inv(m, now) && Quiet(m, now) && m.job.Some? && !m.job.value.Busy() && m.WakeAt(now) == Some(w)
    requires !m.UpdatedJob(w).Busy() && !m.UpdatedJob(w).Settled(m.cfg.MaxAttempts())
    ensures Descends(m, now, m.TakeTurn(w).m, w) && m.TakeTurn(w).stop
  {
    var j := m.UpdatedJob(w);
    BusyOnceIssued(m.cfg, j, w);
    var m' := m.(job := Some(j.IssueTasks(w, m.cfg.MaxAttempts(), m.cfg.retrySpacing)));
    assert m.TakeTurn(w).m == m';
    if !m'.job.value.Busy() {
      JobWakeDescends(m, now, w, m');
    }
  }

  lemma NotBusyLater(m: DeciderState, w: Time)
    requires m.WellFormed() && m.job.Some? && !m.job.value.Busy()
    ensures !m.UpdatedJob(w).Busy()
  {
    UpdateKeepsOutstanding(m, w);
    BusyIsOutstanding(m);
    BusyIsOutstanding(m.(job := Some(m.UpdatedJob(w))));
  }

  lemma WaitingWakeDescends(m: DeciderState, now: Time, w: Time)
    requires Inv(m, now) && Quiet(m, now) && m.job.Some? && !m.job.value.Busy() && m.WakeAt(now) == Some(w)
    requires w > now
    ensures Descends(m, now, m.AdvanceTime(w).0, w)
  {
    NotBusyLater(m, w);
    if m.UpdatedJob(w).Settled(m.cfg.MaxAttempts()) {
      InvLater(m, now, w);
      EndedWakeDescends(m, w);
    } else {
      UnsettledWakeDescends(m, now, w);
      AdvanceTimeUnfolds(m, w);
    }
  }

  lemma IdleWakeDescends(m: DeciderState, now: Time)
    requires Inv(m, now) && Quiet(m, now) && m.job.None? && m.WakeAt(now).Some?
    ensures Descends(m, now, m.AdvanceTime(m.WakeAt(now).value).0, m.WakeAt(now).value)
  {
    var w, times := m.WakeAt(now).value, m.Candidates(now);
    EarliestFacts(now, times);
    NoJobLeftWaiting(m, w);
    if m.ClaimAt() != Some(w) {
      if m.ClaimAt().Some? {
        assert times[0] == m.ClaimAt().value;
      }
      LiftedIsIssued(m, now);
    }
  }

  lemma LiftsAtWake(m: DeciderState, now: Time, w: Time) returns (a: Assignment)
    requires m.WellFormed() && m.job.None? && m.WakeAt(now) == Some(w) && m.ClaimAt() != Some(w)
    ensures m.latest.Some? && a in m.latest.value.assignments && Unhandled(m.cfg.id, m.handled.value, a)
    ensures Assess(m.cfg, m.limits, w, m.latest.value, a).GiveNow?
  {
    EarliestFacts(now, m.Candidates(now));
    var ps := m.PendingAssignments(now);
    LiftFacts(ps);
    assert LimitLifts(ps) == Some(w);
    var p :| p in ps && p.verdict == RateLimited(w);
    PendingFacts(m.cfg, m.handled.value, m.limits, now, m.latest.value, m.latest.value.assignments);
    a := p.assignment;
    LiftsExactly(m.cfg, m.limits, now, a.Key());
  }

  lemma LiftedBuilds(m: DeciderState, now: Time, w: Time)
    requires m.WellFormed() && Quiet(m, now) && m.job.None? && m.WakeAt(now) == Some(w) && m.ClaimAt() != Some(w)
    ensures m.latest.Some? && m.Reconcile(w).Some? && m.Reconcile(w).value.assignments != []
  {
    var a := LiftsAtWake(m, now, w);
    QuietPending(m, now);
    var later := m.PendingAssignments(w);
    PendingFacts(m.cfg, m.handled.value, m.limits, w, m.latest.value, m.latest.value.assignments);
    assert PendingAssignment(a, GiveNow) in later;
    RecordedFacts(later);
    TaskFacts(later);
    assert PendingAssignment(a, GiveNow).assignment.Key() in RecordedSeqs(later);
  }

  /** Once the limiter lifts, the job built is issued. */
  lemma LiftedIsIssued(m: DeciderState, now: Time)
    requires m.WellFormed() && Quiet(m, now) && m.job.None? && m.WakeAt(now).Some? && m.ClaimAt() != m.WakeAt(now)
    requires !m.ClaimDue(m.WakeAt(now).value)
    ensures Stage(m.AdvanceTime(m.WakeAt(now).value).0) == 0
  {
    var w := m.WakeAt(now).value;
    LiftedBuilds(m, now, w);
    var m1 := m.(job := m.Reconcile(w));
    AdvanceTimeUnfolds(m, w);
    assert m.TakeTurn(w) == Turn(m1, [], false);
    BuiltIsOk(m, w);
    AdvanceTimeUnfolds(m1, w);
    BuiltIsIssuedOrOver(m1, w);
  }

  lemma AdvanceDescends(m: DeciderState, now: Time, w: Time)
    requires Inv(m, now) && Quiet(m, now) && m.WakeAt(now) == Some(w) && w > now
    ensures Descends(m, now, m.AdvanceTime(w).0, w)
  {
    if m.job.None? {
      IdleWakeDescends(m, now);
    } else if m.job.value.Busy() {
      BusyWakeDescends(m, now);
    } else {
      WaitingWakeDescends(m, now, w);
    }
  }

  lemma DecideNothingAdvances(m: DeciderState, now: Time)
    requires m.WellFormed()
    ensures m.Decide(now, Nothing).0 == m.AdvanceTime(now).0
  {
  }

  /** Each wake taken with nothing else observed brings the decider strictly closer to none. */
  lemma WakeDescends(m: DeciderState, now: Time, w: Time)
    requires Inv(m, now) && Quiet(m, now) && m.WakeAt(now) == Some(w)
    ensures var m' := m.Decide(w, Nothing).0;
            w > now && Inv(m', w) && Quiet(m', w) && Descends(m, now, m', w)
  {
    EarliestFacts(now, m.Candidates(now));
    InvLater(m, now, w);
    AdvanceTimeIssues(m, w);
    AdvancingEndsQuiet(m, w);
    AdvanceDescends(m, now, w);
    DecideNothingAdvances(m, w);
  }

  /** Following the wakes alone ends, and where it ends there is no wake: a decider left to
      itself goes quiet for good after finitely many wakes. */
  ghost function FollowWakes(m: DeciderState, now: Time): (r: (DeciderState, Time))
    requires Inv(m, now) && Quiet(m, now)
    ensures r.1 >= now && Inv(r.0, r.1) && Quiet(r.0, r.1) && r.0.WakeAt(r.1).None?
    decreases Stage(m), ClaimAhead(m, now), Awaiting(m)
  {
    var wake := m.WakeAt(now);
    if wake.None? then (m, now)
    else
      WakeDescends(m, now, wake.value);
      FollowWakes(m.Decide(wake.value, Nothing).0, wake.value)
  }
}
