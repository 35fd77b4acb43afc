/** The life of a task: issued a bounded number of times, spaced, recorded at the end; a
    device is done only on a receipt. */
module TaskLife {
  import opened Options
  import opened State
  import opened Policy
  import opened Jobs
  import opened Deciding
  import opened DeciderInvariant
  import opened Waking

  /** At now nothing is left for the job to wait for or try. */
  predicate EndsNow(m: DeciderState, now: Time) {
    m.job.Some? && !m.UpdatedJob(now).Busy() && m.UpdatedJob(now).Settled(m.cfg.MaxAttempts())
  }

  /** A task over one observation at now: done and dropped are final, and it is issued again
      only after a failure, with attempts left and the spacing past. */
  ghost predicate Evolves(cfg: Config, h: Header, h': Header, now: Time) {
    && (h.status.Done? ==> h'.status.Done?)
    && (h.status.Dropped? ==> h'.status.Dropped?)
    && (h'.attempts == h.attempts ==> h'.lastIssued == h.lastIssued)
    && (h'.attempts != h.attempts ==>
          && h'.attempts == h.attempts + 1 && h'.attempts <= cfg.MaxAttempts()
          && h'.status.Issued? && h'.lastIssued == now && now >= h.lastIssued + cfg.retrySpacing)
  }

  /** The job in flight after advancing, when it does not end. */
  lemma StaysInFlight(m: DeciderState, now: Time)
    requires Inv(m, now) && m.job.Some? && !EndsNow(m, now)
    ensures m.AdvanceTime(now).0 == m.(job := Some(InFlight(m, now)))
  {
    AdvanceTimeUnfolds(m, now);
  }

  lemma UpdatedTaskEvolves(cfg: Config, t: AssignmentTask, s: ServerState,
                           current: map<AssignmentKey, Assignment>, now: Time)
    requires !t.header.status.Pending?
    ensures var t' := UpdatedTask(t, s, current, now, cfg.arrivalWindow);
            && t'.assignment == t.assignment
            && t'.header.status.Issued? == t.header.status.Issued?
            && Evolves(cfg, t.header, t'.header, now)
            && Evolves(cfg, t.header, t'.header.IssueIfDue(now, cfg.MaxAttempts(), cfg.retrySpacing), now)
  {
  }

  ghost predicate JobEvolves(cfg: Config, j: JobState, j': JobState, now: Time) {
    && |j'.assignments| == |j.assignments| && |j'.commands| == |j.commands|
    && (forall i | 0 <= i < |j.assignments| ::
          && j'.assignments[i].assignment == j.assignments[i].assignment
          && Evolves(cfg, j.assignments[i].header, j'.assignments[i].header, now))
    && (forall i | 0 <= i < |j.commands| ::
          && j'.commands[i].cmd == j.commands[i].cmd
          && Evolves(cfg, j.commands[i].header, j'.commands[i].header, now))
  }

  /** Each task over the time in which its job stays in flight. */
  lemma InFlightEvolves(m: DeciderState, now: Time)
    requires Inv(m, now) && m.job.Some?
    ensures JobEvolves(m.cfg, m.job.value, InFlight(m, now), now)
  {
    UpdatedJobIs(m, now);
    var j, j' := m.job.value, InFlight(m, now);
    forall i | 0 <= i < |j.assignments|
      ensures j'.assignments[i].assignment == j.assignments[i].assignment
      ensures Evolves(m.cfg, j.assignments[i].header, j'.assignments[i].header, now)
    {
      UpdatedTaskEvolves(m.cfg, j.assignments[i], m.latest.value, ByKey(m.latest.value.assignments), now);
    }
  }

  /** An observation reports on issued tasks only, and issues nothing. */
  ghost predicate Reports(h: Header, h': Header) {
    && h'.attempts == h.attempts && h'.lastIssued == h.lastIssued
    && (!h.status.Issued? ==> h' == h)
    && (h'.status.Issued? ==> h.status.Issued?)
  }

  ghost predicate JobReports(j: JobState, j': JobState) {
    && |j'.assignments| == |j.assignments| && |j'.commands| == |j.commands|
    && (forall i | 0 <= i < |j.assignments| ::
          && j'.assignments[i].assignment == j.assignments[i].assignment
          && Reports(j.assignments[i].header, j'.assignments[i].header))
    && (forall i | 0 <= i < |j.commands| ::
          && j'.commands[i].cmd == j.commands[i].cmd
          && Reports(j.commands[i].header, j'.commands[i].header))
  }

  lemma ObservedReports(m: DeciderState, now: Time, o: Observation)
    requires m.WellFormed() && ValidObservation(o) && m.job.Some?
    ensures var m' := m.Observe(now, o).0;
            m'.job.Some? && JobReports(m.job.value, m'.job.value)
  {
  }

  lemma ReportedEvolves(cfg: Config, j: JobState, seen: JobState, j': JobState, now: Time)
    requires JobReports(j, seen) && JobEvolves(cfg, seen, j', now)
    ensures JobEvolves(cfg, j, j', now)
  {
  }

  /** What a job that ends at now records of its give-aways: all but those left pending. */
  ghost predicate RecordsAllButLeft(m: DeciderState, h: Handled, now: Time)
    requires m.job.Some?
  {
    forall i | 0 <= i < |m.UpdatedJob(now).assignments| ::
      var t := m.UpdatedJob(now).assignments[i];
      h.Has(t.Key(), t.assignment.seqno) <==> !LeftPending(t)
  }

  /** Over one observation: either the job stays in flight and each of its tasks keeps to its
      life, or it ends and records exactly the give-aways it does not leave pending. */
  lemma JobLife(m: DeciderState, before: Time, now: Time, o: Observation)
    requires Inv(m, before) && before <= now && ValidObservation(o) && m.job.Some?
    ensures var seen := m.Observe(now, o).0;
            && seen.WellFormed() && seen.job.Some?
            && (if EndsNow(seen, now) then
                  seen.TakeTurn(now).m.handled.Some?
                  && RecordsAllButLeft(seen, seen.TakeTurn(now).m.handled.value, now)
                else
                  var m' := m.Decide(now, o).0;
                  m'.job.Some? && JobEvolves(m.cfg, m.job.value, m'.job.value, now))
  {
    ObserveKeepsInv(m, now, o);
    ObservedReports(m, now, o);
    var seen := m.Observe(now, o).0;
    if EndsNow(seen, now) {
      EndRecords(seen, now);
    } else {
      StaysInFlight(seen, now);
      InFlightEvolves(seen, now);
      ReportedEvolves(m.cfg, m.job.value, seen.job.value, InFlight(seen, now), now);
    }
  }

  lemma EndRecords(m: DeciderState, now: Time)
    requires Inv(m, now) && EndsNow(m, now)
    ensures m.TakeTurn(now).m.handled.Some? && RecordsAllButLeft(m, m.TakeTurn(now).m.handled.value, now)
  {
    UpdateKeepsJob(m, now);
    var j := m.UpdatedJob(now);
    assert m.TakeTurn(now).m.handled == Some(m.handled.value.Add(j.record));
    forall i | 0 <= i < |j.assignments|
      ensures m.handled.value.Add(j.record).Has(j.assignments[i].Key(), j.assignments[i].assignment.seqno)
         <==> !LeftPending(j.assignments[i])
    {
      assert AssignmentOk(m.cfg, m.handled.value, j.assignments[i], j.record.seqs, now);
    }
  }

  // A job whose issues are answered ends.

  /** What a task can still do: two for each attempt left, one for the answer awaited. */
  ghost function HeaderFuel(h: Header, maxAttempts: nat): nat {
    (if h.attempts < maxAttempts then 2 * (maxAttempts - h.attempts) else 0) + if h.status.Issued? then 1 else 0
  }

  ghost function Fuel(headers: seq<Header>, maxAttempts: nat): nat {
    if headers == [] then 0
    else Fuel(headers[..|headers| - 1], maxAttempts) + HeaderFuel(headers[|headers| - 1], maxAttempts)
  }

  lemma {:induction false} FuelNeverGrows(before: seq<Header>, after: seq<Header>, maxAttempts: nat)
    requires |before| == |after|
    requires forall i | 0 <= i < |before| :: HeaderFuel(after[i], maxAttempts) <= HeaderFuel(before[i], maxAttempts)
    ensures Fuel(after, maxAttempts) <= Fuel(before, maxAttempts)
  {
    if before != [] {
      var n := |before| - 1;
      FuelNeverGrows(before[..n], after[..n], maxAttempts);
    }
  }

  lemma {:induction false} FuelBurns(before: seq<Header>, after: seq<Header>, maxAttempts: nat, i: nat)
    requires |before| == |after| && i < |before|
    requires forall i | 0 <= i < |before| :: HeaderFuel(after[i], maxAttempts) <= HeaderFuel(before[i], maxAttempts)
    requires HeaderFuel(after[i], maxAttempts) < HeaderFuel(before[i], maxAttempts)
    ensures Fuel(after, maxAttempts) < Fuel(before, maxAttempts)
  {
    var n := |before| - 1;
    if i < n {
      FuelBurns(before[..n], after[..n], maxAttempts, i);
    } else {
      FuelNeverGrows(before[..n], after[..n], maxAttempts);
    }
  }

  ghost function JobFuel(m: DeciderState): nat {
    if m.job.None? then 0 else Fuel(m.job.value.Headers(), m.cfg.MaxAttempts())
  }

  /** The answer to what is outstanding: results for the commands, or for the assignments. */
  function Answer(m: DeciderState, run: seq<Result>, giveAway: map<AssignmentKey, Result>): Observation {
    if m.job.Some? && m.job.value.AwaitsRun() then Ran(run) else GaveAway(giveAway)
  }

  function Answered(j: JobState, now: Time, run: seq<Result>, giveAway: map<AssignmentKey, Result>): JobState {
    if j.AwaitsRun() then j.ReportRun(run) else j.ReportGiveAway(now, giveAway)
  }

  lemma HeadersAre(j: JobState)
    ensures |j.Headers()| == |j.commands| + |j.assignments|
    ensures forall i | 0 <= i < |j.commands| :: j.Headers()[i] == j.commands[i].header
    ensures forall i | 0 <= i < |j.assignments| :: j.Headers()[|j.commands| + i] == j.assignments[i].header
  {
  }

  /** A busy job has an issued task; it is one that an answer reports on. */
  lemma AwaitedHeader(j: JobState) returns (i: nat)
    requires j.Busy()
    ensures i < |j.commands| + |j.assignments| && j.Headers()[i].status.Issued?
    ensures j.AwaitsRun() <==> i < |j.commands|
  {
    HeadersAre(j);
    if j.AwaitsRun() {
      i :| 0 <= i < |j.commands| && j.commands[i].header.status.Issued?;
    } else {
      var k :| 0 <= k < |j.assignments| && j.assignments[k].header.status.Issued?;
      i := |j.commands| + k;
      assert j.Headers()[i] == j.assignments[k].header;
    }
  }

  lemma RunAnswers(j: JobState, run: seq<Result>, i: nat)
    requires i < |j.commands| && j.commands[i].header.status.Issued?
    ensures i < |j.ReportRun(run).Headers()| && !j.ReportRun(run).Headers()[i].status.Issued?
  {
    assert j.ReportRun(run).Headers()[i] == j.ReportRun(run).commands[i].header;
  }

  lemma GiveAwayAnswers(j: JobState, now: Time, giveAway: map<AssignmentKey, Result>, k: nat)
    requires k < |j.assignments| && j.assignments[k].header.status.Issued?
    ensures var j' := j.ReportGiveAway(now, giveAway);
            |j.commands| + k < |j'.Headers()| && !j'.Headers()[|j.commands| + k].status.Issued?
  {
    var j' := j.ReportGiveAway(now, giveAway);
    assert j'.Headers()[|j.commands| + k] == j'.assignments[k].header;
  }

  /** Some issued task of a busy job is answered. */
  lemma AnswersSome(j: JobState, now: Time, run: seq<Result>, giveAway: map<AssignmentKey, Result>) returns (i: nat)
    requires j.Busy()
    ensures var j' := Answered(j, now, run, giveAway);
            i < |j.Headers()| && i < |j'.Headers()| && j.Headers()[i].status.Issued? && !j'.Headers()[i].status.Issued?
  {
    i := AwaitedHeader(j);
    if j.AwaitsRun() {
      assert j.Headers()[i] == j.commands[i].header;
      RunAnswers(j, run, i);
    } else {
      assert j.Headers()[i] == j.assignments[i - |j.commands|].header;
      GiveAwayAnswers(j, now, giveAway, i - |j.commands|);
    }
  }

  lemma HeadersReport(j: JobState, j': JobState)
    requires JobReports(j, j')
    ensures |j'.Headers()| == |j.Headers()|
    ensures forall i | 0 <= i < |j.Headers()| :: Reports(j.Headers()[i], j'.Headers()[i])
  {
  }

  lemma AnswerBurns(m: DeciderState, now: Time, run: seq<Result>, giveAway: map<AssignmentKey, Result>)
    requires m.WellFormed() && m.job.Some? && m.job.value.Busy()
    ensures m.Observe(now, Answer(m, run, giveAway)).0.job.Some?
    ensures JobFuel(m.Observe(now, Answer(m, run, giveAway)).0) < JobFuel(m)
  {
    var o := Answer(m, run, giveAway);
    var m' := m.Observe(now, o).0;
    ObservedReports(m, now, o);
    HeadersReport(m.job.value, m'.job.value);
    assert m'.job.value == Answered(m.job.value, now, run, giveAway);
    var i := AnswersSome(m.job.value, now, run, giveAway);
    FuelBurns(m.job.value.Headers(), m'.job.value.Headers(), m.cfg.MaxAttempts(), i);
  }

  lemma HeadersEvolve(m: DeciderState, now: Time)
    requires Inv(m, now) && m.job.Some?
    ensures var before, after := m.UpdatedJob(now).Headers(), m.job.value.Headers();
            |before| == |after|
            && forall i | 0 <= i < |before| ::
                 before[i].attempts == after[i].attempts && before[i].status.Issued? == after[i].status.Issued?
  {
    UpdatedJobIs(m, now);
    var j, j' := m.job.value, m.UpdatedJob(now);
    forall i | 0 <= i < |j.assignments|
      ensures j'.assignments[i].header.attempts == j.assignments[i].header.attempts
      ensures j'.assignments[i].header.status.Issued? == j.assignments[i].header.status.Issued?
    {
    }
  }

  lemma UpdateKeepsFuel(m: DeciderState, now: Time)
    requires Inv(m, now) && m.job.Some?
    ensures Fuel(m.UpdatedJob(now).Headers(), m.cfg.MaxAttempts()) <= JobFuel(m)
  {
    HeadersEvolve(m, now);
    FuelNeverGrows(m.job.value.Headers(), m.UpdatedJob(now).Headers(), m.cfg.MaxAttempts());
  }

  lemma IssuedHeaders(cfg: Config, j: JobState, now: Time)
    ensures var j' := j.IssueTasks(now, cfg.MaxAttempts(), cfg.retrySpacing);
            && |j'.Headers()| == |j.Headers()|
            && forall i | 0 <= i < |j.Headers()| ::
                 j'.Headers()[i] == j.Headers()[i].IssueIfDue(now, cfg.MaxAttempts(), cfg.retrySpacing)
  {
  }

  lemma NoHeaderIssued(j: JobState)
    requires !j.Busy()
    ensures forall i | 0 <= i < |j.Headers()| :: !j.Headers()[i].status.Issued?
  {
  }

  /** A task due has an attempt left. */
  ghost predicate AttemptsLeft(cfg: Config, headers: seq<Header>) {
    forall i | 0 <= i < |headers| :: headers[i].status.Pending? ==> headers[i].attempts < cfg.MaxAttempts()
  }

  lemma HeadersBurn(cfg: Config, before: seq<Header>, after: seq<Header>, now: Time)
    requires |before| == |after| && AttemptsLeft(cfg, before)
    requires forall i | 0 <= i < |before| :: !before[i].status.Issued?
    requires forall i | 0 <= i < |before| ::
               after[i] == before[i].IssueIfDue(now, cfg.MaxAttempts(), cfg.retrySpacing)
    ensures Fuel(after, cfg.MaxAttempts()) <= Fuel(before, cfg.MaxAttempts())
    ensures forall i | 0 <= i < |after| && after[i].status.Issued? ::
              Fuel(after, cfg.MaxAttempts()) < Fuel(before, cfg.MaxAttempts())
  {
    FuelNeverGrows(before, after, cfg.MaxAttempts());
    forall i | 0 <= i < |after| && after[i].status.Issued?
      ensures Fuel(after, cfg.MaxAttempts()) < Fuel(before, cfg.MaxAttempts())
    {
      FuelBurns(before, after, cfg.MaxAttempts(), i);
    }
  }

  /** Issuing costs fuel. */
  lemma IssueBurns(cfg: Config, j: JobState, now: Time)
    requires AttemptsLeft(cfg, j.Headers()) && !j.Busy()
    ensures var j' := j.IssueTasks(now, cfg.MaxAttempts(), cfg.retrySpacing);
            && Fuel(j'.Headers(), cfg.MaxAttempts()) <= Fuel(j.Headers(), cfg.MaxAttempts())
            && (j'.Busy() ==> Fuel(j'.Headers(), cfg.MaxAttempts()) < Fuel(j.Headers(), cfg.MaxAttempts()))
  {
    var j' := j.IssueTasks(now, cfg.MaxAttempts(), cfg.retrySpacing);
    IssuedHeaders(cfg, j, now);
    NoHeaderIssued(j);
    HeadersBurn(cfg, j.Headers(), j'.Headers(), now);
    if j'.Busy() {
      var i := AwaitedHeader(j');
      HeadersAre(j');
    }
  }

  // Driving a job to its end.

  /** What the environment answers: after how long, and with which results. */
  datatype Reply = Reply(delay: nat, run: seq<Result>, giveAway: map<AssignmentKey, Result>)

  /** A job in flight always has something coming: an answer or a wake. */
  lemma NeverStuck(m: DeciderState, now: Time)
    requires Inv(m, now) && Quiet(m, now) && m.job.Some? && !m.job.value.Busy()
    ensures m.WakeAt(now).Some? && m.WakeAt(now).value > now
  {
    EarliestFacts(now, m.Candidates(now));
    var at := JobDeadlineAhead(m, now);
    assert at in m.Candidates(now);
  }

  /** at ends some awaited arrival, or some task's spacing. */
  ghost predicate IsDeadline(cfg: Config, j: JobState, at: Time) {
    || (exists i :: 0 <= i < |j.assignments| && j.assignments[i].header.status.AwaitingArrival?
                    && at == j.assignments[i].ArrivalDeadline(cfg.arrivalWindow))
    || (exists i :: 0 <= i < |j.commands| && at == j.commands[i].header.RetryAt(cfg.retrySpacing))
    || (exists i :: 0 <= i < |j.assignments| && at == j.assignments[i].header.RetryAt(cfg.retrySpacing))
  }

  lemma JobDeadlineAhead(m: DeciderState, now: Time) returns (at: Time)
    requires Inv(m, now) && Quiet(m, now) && m.job.Some? && !m.job.value.Busy()
    ensures at > now && at in m.job.value.Deadlines(m.cfg.MaxAttempts(), m.cfg.retrySpacing, m.cfg.arrivalWindow)
    ensures IsDeadline(m.cfg, m.job.value, at)
  {
    var j := m.job.value;
    ArrivalDeadlineFacts(j.assignments, m.cfg.arrivalWindow);
    RetryFacts(j.Headers(), m.cfg.MaxAttempts(), m.cfg.retrySpacing);
    HeadersAre(j);
    if i :| 0 <= i < |j.assignments| && j.assignments[i].header.status.AwaitingArrival? {
      UpdatedJobIs(m, now);
      assert m.UpdatedJob(now).assignments[i] == j.assignments[i];
      at := j.assignments[i].ArrivalDeadline(m.cfg.arrivalWindow);
    } else if i :| 0 <= i < |j.commands| && !j.commands[i].header.Settled(m.cfg.MaxAttempts()) {
      assert j.Headers()[i] == j.commands[i].header;
      at := j.commands[i].header.RetryAt(m.cfg.retrySpacing);
    } else {
      var i :| 0 <= i < |j.assignments| && !j.assignments[i].header.Settled(m.cfg.MaxAttempts());
      assert j.Headers()[|j.commands| + i] == j.assignments[i].header;
      at := j.assignments[i].header.RetryAt(m.cfg.retrySpacing);
    }
  }

  lemma InFlightBurns(m: DeciderState, now: Time)
    requires Inv(m, now) && m.job.Some?
    ensures Fuel(InFlight(m, now).Headers(), m.cfg.MaxAttempts()) <= JobFuel(m)
    ensures InFlight(m, now).Busy() && !m.UpdatedJob(now).Busy() ==>
              Fuel(InFlight(m, now).Headers(), m.cfg.MaxAttempts()) < JobFuel(m)
    ensures !InFlight(m, now).Busy() ==>
              InFlight(m, now) == m.UpdatedJob(now) && NothingDue(m.cfg, m.UpdatedJob(now), now)
  {
    UpdateKeepsFuel(m, now);
    UpdateKeepsJob(m, now);
    var j := m.UpdatedJob(now);
    if !j.Busy() {
      HeadersAre(j);
      IssueBurns(m.cfg, j, now);
      BusyOnceIssued(m.cfg, j, now);
    }
  }

  /** Advancing a job that does not end. */
  lemma FlightStep(m: DeciderState, now: Time)
    requires Inv(m, now) && m.job.Some? && !EndsNow(m, now)
    ensures var m' := m.AdvanceTime(now).0;
            m' == m.(job := Some(InFlight(m, now))) && Inv(m', now) && Quiet(m', now) && JobFuel(m') <= JobFuel(m)
  {
    StaysInFlight(m, now);
    AdvanceTimeIssues(m, now);
    AdvancingEndsQuiet(m, now);
    InFlightBurns(m, now);
  }

  lemma WakeStep(m: DeciderState, now: Time, w: Time)
    requires Inv(m, now) && Quiet(m, now) && m.job.Some? && !m.job.value.Busy() && m.WakeAt(now) == Some(w) && w > now
    requires !EndsNow(m, w)
    ensures var m' := m.AdvanceTime(w).0;
            && m'.job.Some? && Inv(m', w) && Quiet(m', w)
            && JobFuel(m') <= JobFuel(m)
            && (|| JobFuel(m') < JobFuel(m)
                || (ClaimAhead(m', w) <= ClaimAhead(m, now) && Awaiting(m') <= Awaiting(m)
                    && (ClaimAhead(m', w) < ClaimAhead(m, now) || Awaiting(m') < Awaiting(m))))
  {
    InvLater(m, now, w);
    FlightStep(m, w);
    InFlightBurns(m, w);
    NotBusyLater(m, w);
    if !InFlight(m, w).Busy() {
      JobWakeDescends(m, now, w, m.(job := Some(m.UpdatedJob(w))));
    }
  }

  lemma AnswerStep(m: DeciderState, now: Time, run: seq<Result>, giveAway: map<AssignmentKey, Result>)
    requires Inv(m, now) && m.job.Some? && m.job.value.Busy()
    ensures var seen := m.Observe(now, Answer(m, run, giveAway)).0;
            && Inv(seen, now) && seen.job.Some? && JobFuel(seen) < JobFuel(m)
            && (!EndsNow(seen, now) ==>
                  var m' := seen.AdvanceTime(now).0;
                  m'.job.Some? && Inv(m', now) && Quiet(m', now) && JobFuel(m') < JobFuel(m))
  {
    ObserveKeepsInv(m, now, Answer(m, run, giveAway));
    AnswerBurns(m, now, run, giveAway);
    var seen := m.Observe(now, Answer(m, run, giveAway)).0;
    if !EndsNow(seen, now) {
      FlightStep(seen, now);
    }
  }

  /** A job whose issues are answered ends: whatever the results and however long they take,
      answering what is outstanding and otherwise following the wakes reaches, in finitely many
      steps, a time at which the job is over. */
  ghost function DriveToEnd(m: DeciderState, now: Time, reply: DeciderState -> Reply): (r: (DeciderState, Time))
    requires Inv(m, now) && Quiet(m, now) && m.job.Some?
    ensures r.1 >= now && EndsNow(r.0, r.1)
    decreases JobFuel(m), ClaimAhead(m, now), Awaiting(m)
  {
    if m.job.value.Busy() then
      var at := now + reply(m).delay;
      InvLater(m, now, at);
      AnswerStep(m, at, reply(m).run, reply(m).giveAway);
      var seen := m.Observe(at, Answer(m, reply(m).run, reply(m).giveAway)).0;
      if EndsNow(seen, at) then (seen, at) else DriveToEnd(seen.AdvanceTime(at).0, at, reply)
    else
      NeverStuck(m, now);
      var at := m.WakeAt(now).value;
      if EndsNow(m, at) then (m, at)
      else
        WakeStep(m, now, at);
        DriveToEnd(m.AdvanceTime(at).0, at, reply)
  }
}
