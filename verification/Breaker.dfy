/** The rate limit over whole runs, against the limiter that keeps every attempt. */
module Breaker {
  import opened Options
  import opened State
  import opened Policy
  import opened RateLimiting
  import opened Jobs
  import opened Deciding
  import opened DeciderInvariant
  import opened Provenance
  import Runs

  /** The names counted at now: what the job in flight tried to move, once it is over. */
  function Counted(m: DeciderState, now: Time): seq<AssignmentKey> {
    if m.job.None? then []
    else
      var j := m.UpdatedJob(now);
      if j.Busy() || !j.Settled(m.cfg.MaxAttempts()) then [] else TriedKeys(j.assignments)
  }

  lemma AdvanceCounts(m: DeciderState, now: Time)
    requires Between(m, now)
    ensures m.AdvanceTime(now).0.limits == m.limits.CountAll(m.cfg, now, Counted(m, now))
    decreases m.OldJob(now), m.OpenEdge(), m.UnhandledCount(), m.DueClaim(now), m.JobToBuild()
  {
    AdvanceTimeUnfolds(m, now);
    TurnIssues(m, now);
    var t := m.TakeTurn(now);
    if !t.stop {
      TurnDecreases(m, now);
      AdvanceCounts(t.m, now);
      NothingNewCounted(m, now);
    }
  }

  /** After a turn that does not stop there is no job, or one just built: it tried nothing. */
  lemma NothingNewCounted(m: DeciderState, now: Time)
    requires Between(m, now) && !m.TakeTurn(now).stop
    ensures Counted(m.TakeTurn(now).m, now) == []
  {
    var m' := m.TakeTurn(now).m;
    TurnIssues(m, now);
    if m'.job.Some? {
      FreshJobIsUpToDate(m', now);
      BuiltIsOk(m', now);
      var j := m'.job.value;
      if j.assignments != [] {
        assert !j.assignments[0].header.Settled(m'.cfg.MaxAttempts());
      }
    }
  }

  lemma {:induction false} TriedKeysFacts(tasks: seq<AssignmentTask>)
    requires DistinctTasks(tasks)
    ensures forall key | key in TriedKeys(tasks) :: exists i :: 0 <= i < |tasks| && tasks[i].Key() == key
    ensures forall i, j | 0 <= i < j < |TriedKeys(tasks)| :: TriedKeys(tasks)[i] != TriedKeys(tasks)[j]
  {
    if tasks != [] {
      var n := |tasks| - 1;
      TriedKeysFacts(tasks[..n]);
      forall key | key in TriedKeys(tasks)
        ensures exists i :: 0 <= i < |tasks| && tasks[i].Key() == key
      {
        if key in TriedKeys(tasks[..n]) {
          var i :| 0 <= i < n && tasks[..n][i].Key() == key;
          assert tasks[i].Key() == key;
        } else {
          assert tasks[n].Key() == key;
        }
      }
      assert forall i | 0 <= i < n :: tasks[..n][i].Key() != tasks[n].Key();
      assert tasks[n].Key() !in TriedKeys(tasks[..n]);
    }
  }

  /** Consecutive attempts of a name: a cooldown apart, and a pause apart after a trip. */
  ghost predicate Apart(cfg: Config, attempts: seq<Time>) {
    forall i | 0 < i < |attempts| ::
      && attempts[i] - attempts[i - 1] >= cfg.cooldown
      && (Trips(cfg, attempts, i - 1) ==> attempts[i] - attempts[i - 1] >= cfg.breakerPause)
  }

  /** The attempt that last tripped is no earlier than any that did. */
  ghost predicate TripsSeen(cfg: Config, h: History, attempts: seq<Time>) {
    forall i | 0 <= i < |attempts| && Trips(cfg, attempts, i) :: h.trippedAt.Some? && attempts[i] <= h.trippedAt.value
  }

  ghost predicate HistoryOk(cfg: Config, h: History, now: Time) {
    && Upto(h, now)
    && forall key | key in h.attempts :: Apart(cfg, h.attempts[key]) && TripsSeen(cfg, h, h.attempts[key])
  }

  /** A further attempt of these at now keeps its distance. */
  ghost predicate Ready(cfg: Config, attempts: seq<Time>, now: Time) {
    attempts != [] ==>
      var last := |attempts| - 1;
      && attempts[last] + cfg.cooldown <= now
      && (Trips(cfg, attempts, last) ==> attempts[last] + cfg.breakerPause <= now)
  }

  lemma TripsOfPrefix(cfg: Config, attempts: seq<Time>, at: Time)
    ensures forall i | 0 <= i < |attempts| :: Trips(cfg, attempts + [at], i) == Trips(cfg, attempts, i)
  {
    forall i | 0 <= i < |attempts|
      ensures Trips(cfg, attempts + [at], i) == Trips(cfg, attempts, i)
    {
      assert (attempts + [at])[..i + 1] == attempts[..i + 1];
    }
  }

  lemma RecordKeeps(cfg: Config, h: History, now: Time, key: AssignmentKey)
    requires cfg.Valid() && HistoryOk(cfg, h, now) && Ready(cfg, h.Of(key), now)
    ensures HistoryOk(cfg, h.Record(cfg, now, key), now)
  {
    var h' := h.Record(cfg, now, key);
    RecordUpto(cfg, h, now, key);
    TripsOfPrefix(cfg, h.Of(key), now);
    forall k | k in h'.attempts
      ensures Apart(cfg, h'.attempts[k]) && TripsSeen(cfg, h', h'.attempts[k])
    {
      if k != key {
        assert forall at | at in h.attempts[k] :: at <= now;
      } else {
        assert Apart(cfg, h.Of(key)) && TripsSeen(cfg, h, h.Of(key));
        RecordedApart(cfg, h.Of(key), now);
        RecordedSeen(cfg, h, now, key);
      }
    }
  }

  lemma RecordedApart(cfg: Config, was: seq<Time>, now: Time)
    requires Apart(cfg, was) && Ready(cfg, was, now)
    ensures Apart(cfg, was + [now])
  {
    var more := was + [now];
    TripsOfPrefix(cfg, was, now);
    forall i | 0 < i < |more|
      ensures more[i] - more[i - 1] >= cfg.cooldown
      ensures Trips(cfg, more, i - 1) ==> more[i] - more[i - 1] >= cfg.breakerPause
    {
      assert Trips(cfg, more, i - 1) == Trips(cfg, was, i - 1);
    }
  }

  lemma RecordedSeen(cfg: Config, h: History, now: Time, key: AssignmentKey)
    requires TripsSeen(cfg, h, h.Of(key)) && Upto(h, now)
    ensures TripsSeen(cfg, h.Record(cfg, now, key), h.Of(key) + [now])
  {
    var was, more := h.Of(key), h.Of(key) + [now];
    TripsOfPrefix(cfg, was, now);
    forall i | 0 <= i < |more| && Trips(cfg, more, i)
      ensures h.Record(cfg, now, key).trippedAt.Some? && more[i] <= h.Record(cfg, now, key).trippedAt.value
    {
      if i < |was| {
        assert was[i] in was && was[i] <= now;
      }
    }
  }

  lemma {:induction false} RecordAllKeeps(cfg: Config, h: History, now: Time, keys: seq<AssignmentKey>)
    requires cfg.Valid() && HistoryOk(cfg, h, now)
    requires forall i, j | 0 <= i < j < |keys| :: keys[i] != keys[j]
    requires forall key | key in keys :: Ready(cfg, h.Of(key), now)
    ensures HistoryOk(cfg, h.RecordAll(cfg, now, keys), now)
    ensures forall key | key !in keys :: h.RecordAll(cfg, now, keys).Of(key) == h.Of(key)
  {
    if keys != [] {
      var n := |keys| - 1;
      assert keys == keys[..n] + [keys[n]];
      RecordAllKeeps(cfg, h, now, keys[..n]);
      assert keys[n] !in keys[..n];
      RecordKeeps(cfg, h.RecordAll(cfg, now, keys[..n]), now, keys[n]);
    }
  }

  /** What holds of a decider and the history of all it counted. */
  ghost predicate Tracked(m: DeciderState, h: History, now: Time) {
    Inv(m, now) && Refines(m.cfg, m.limits, h) && HistoryOk(m.cfg, h, now)
  }

  /** The tasks of a job in flight could be counted at now. */
  lemma TasksAreReady(m: DeciderState, h: History, now: Time, i: nat)
    requires Tracked(m, h, now) && m.job.Some? && i < |m.job.value.assignments|
    ensures Ready(m.cfg, h.Of(m.job.value.assignments[i].Key()), now)
  {
    var key := m.job.value.assignments[i].Key();
    PrunedAnswersAlike(m.cfg, m.limits, h, now, key);
    assert CooldownOver(m.cfg, m.limits, key, now) && PauseOver(m.cfg, m.limits, now);
    if h.Of(key) != [] {
      assert TripsSeen(m.cfg, h, h.attempts[key]);
    }
  }

  lemma CountedIsReady(m: DeciderState, h: History, now: Time, key: AssignmentKey)
    requires Tracked(m, h, now) && m.job.Some? && DistinctTasks(m.UpdatedJob(now).assignments)
    requires key in TriedKeys(m.UpdatedJob(now).assignments)
    ensures Ready(m.cfg, h.Of(key), now)
  {
    var tasks := m.UpdatedJob(now).assignments;
    TriedKeysFacts(tasks);
    var i :| 0 <= i < |tasks| && tasks[i].Key() == key;
    UpdatedJobIs(m, now);
    UpdateKeepsAssignment(m, now, i);
    TasksAreReady(m, h, now, i);
  }

  lemma CountedAreReady(m: DeciderState, h: History, now: Time)
    requires Tracked(m, h, now)
    ensures var keys := Counted(m, now);
            && (forall i, j | 0 <= i < j < |keys| :: keys[i] != keys[j])
            && (forall key | key in keys :: Ready(m.cfg, h.Of(key), now))
  {
    if m.job.Some? {
      UpdateKeepsJob(m, now);
      var tasks := m.UpdatedJob(now).assignments;
      TriedKeysFacts(tasks);
      forall key | key in TriedKeys(tasks)
        ensures Ready(m.cfg, h.Of(key), now)
      {
        CountedIsReady(m, h, now, key);
      }
    }
  }

  /** The history once m observed o at now. */
  function HistoryAfter(m: DeciderState, h: History, now: Time, o: Observation): History
    requires m.WellFormed() && ValidObservation(o)
  {
    h.RecordAll(m.cfg, now, Counted(m.Observe(now, o).0, now))
  }

  lemma ObserveKeepsTracked(m: DeciderState, h: History, before: Time, now: Time, o: Observation)
    requires Tracked(m, h, before) && before <= now && ValidObservation(o)
    ensures Tracked(m.Observe(now, o).0, h, now)
  {
    ObserveKeepsInv(m, now, o);
  }

  /** Each observation keeps the pruned limiter and the full history together, and the
      history's attempts apart. */
  lemma DecideKeepsTracked(m: DeciderState, h: History, before: Time, now: Time, o: Observation)
    requires Tracked(m, h, before) && before <= now && ValidObservation(o)
    ensures Tracked(m.Decide(now, o).0, HistoryAfter(m, h, now, o), now)
  {
    ObserveKeepsTracked(m, h, before, now, o);
    var seen := m.Observe(now, o).0;
    AdvanceTimeIssues(seen, now);
    AdvanceCounts(seen, now);
    Runs.AdvanceKeepsConfig(seen, now);
    CountedAreReady(seen, h, now);
    CountAllRefines(seen.cfg, seen.limits, h, now, Counted(seen, now));
    RecordAllKeeps(seen.cfg, h, now, Counted(seen, now));
  }

  /** Every attempt counted over a run. */
  ghost function HistoryOf(cfg: Config, handled: Option<Handled>, events: seq<Runs.Event>): History
    requires Runs.ValidStart(cfg, handled) && Runs.ValidRun(events)
  {
    if events == [] then NO_HISTORY
    else
      Runs.RunPrefix(events);
      var init, e := events[..|events| - 1], events[|events| - 1];
      HistoryAfter(Runs.RunOf(cfg, handled, init), HistoryOf(cfg, handled, init), e.now, e.o)
  }

  lemma TrackedLater(m: DeciderState, h: History, now: Time, later: Time)
    requires Tracked(m, h, now) && Inv(m, later) && (now <= later || h == NO_HISTORY)
    ensures Tracked(m, h, later)
  {
  }

  lemma {:induction false} RunIsTracked(cfg: Config, handled: Option<Handled>, events: seq<Runs.Event>)
    requires Runs.ValidStart(cfg, handled) && Runs.ValidRun(events)
    ensures Tracked(Runs.RunOf(cfg, handled, events), HistoryOf(cfg, handled, events), Runs.End(events))
  {
    if events != [] {
      Runs.LastStep(cfg, handled, events);
      var init, e := events[..|events| - 1], events[|events| - 1];
      RunIsTracked(cfg, handled, init);
      var m, h := Runs.RunOf(cfg, handled, init), HistoryOf(cfg, handled, init);
      TrackedLater(m, h, Runs.End(init), e.now);
      DecideKeepsTracked(m, h, e.now, e.now, e.o);
    }
  }

  lemma {:induction false} AfterCounts(attempts: seq<Time>, from: nat, cutoff: Time)
    requires from <= |attempts|
    requires forall i | from <= i < |attempts| :: attempts[i] > cutoff
    ensures |RateLimiting.After(attempts, cutoff)| >= |attempts| - from
  {
    if from < |attempts| {
      AfterCounts(attempts[..|attempts| - 1], from, cutoff);
    }
  }

  lemma WindowSpans(cfg: Config, attempts: seq<Time>, i: nat)
    requires cfg.Valid() && cfg.breakerPause >= cfg.breakerWindow
    requires Sorted(attempts) && Apart(cfg, attempts) && i + cfg.breakerMax < |attempts|
    ensures attempts[i + cfg.breakerMax] - attempts[i] >= cfg.breakerWindow
  {
    var last := i + cfg.breakerMax - 1;
    if attempts[i] > attempts[last] - cfg.breakerWindow {
      assert forall k | i <= k <= last :: attempts[i] <= attempts[k];
      AfterCounts(attempts[..last + 1], i, attempts[last] - cfg.breakerWindow);
      assert Trips(cfg, attempts, last);
    }
  }

  /** The rate limit over any run: counted give-aways of one name are at least a cooldown
      apart; when the pause is no shorter than the window, any breakerMax + 1 of them span at
      least the window; and the limiter's answers are those of one that keeps every attempt. */
  lemma RateLimitHolds(cfg: Config, handled: Option<Handled>, events: seq<Runs.Event>, key: AssignmentKey)
    requires Runs.ValidStart(cfg, handled) && Runs.ValidRun(events)
    ensures var m, h := Runs.RunOf(cfg, handled, events), HistoryOf(cfg, handled, events);
            var attempts := h.Of(key);
            && (forall i | 0 < i < |attempts| :: attempts[i] - attempts[i - 1] >= cfg.cooldown)
            && (cfg.breakerPause >= cfg.breakerWindow ==>
                  forall i | 0 <= i && i + cfg.breakerMax < |attempts| ::
                    attempts[i + cfg.breakerMax] - attempts[i] >= cfg.breakerWindow)
            && (forall now | now >= Runs.End(events) ::
                  m.limits.LimitedUntil(cfg, now, key) == h.LimitedUntil(cfg, now, key))
  {
    var m, h := Runs.RunOf(cfg, handled, events), HistoryOf(cfg, handled, events);
    var attempts := h.Of(key);
    RunIsTracked(cfg, handled, events);
    if cfg.breakerPause >= cfg.breakerWindow {
      forall i | 0 <= i && i + cfg.breakerMax < |attempts|
        ensures attempts[i + cfg.breakerMax] - attempts[i] >= cfg.breakerWindow
      {
        WindowSpans(cfg, attempts, i);
      }
    }
    forall now | now >= Runs.End(events)
      ensures m.limits.LimitedUntil(cfg, now, key) == h.LimitedUntil(cfg, now, key)
    {
      UptoLater(h, Runs.End(events), now);
      PrunedAnswersAlike(cfg, m.limits, h, now, key);
    }
  }

  lemma GivenIsPastPause(m: DeciderState, h: History, before: Time, now: Time, o: Observation, a: Assignment)
    requires Tracked(m, h, before) && before <= now && ValidObservation(o) && a in Given(m.Decide(now, o).1)
    ensures var h' := HistoryAfter(m, h, now, o);
            h'.trippedAt.Some? ==> h'.trippedAt.value + m.cfg.breakerPause <= now
  {
    DecideKeepsTracked(m, h, before, now, o);
    DecideLatest(m, now, o);
    DecidedIsAllowed(m, before, now, o);
    assert GiveAwayAllowed(m.Decide(now, o).0, now, a);
  }

  /** No name is given away during a pause, first issue or retry: whatever is given away at now,
      the pause of the last attempt that ever tripped the breaker is over. */
  lemma PausesHold(cfg: Config, handled: Option<Handled>, events: seq<Runs.Event>, now: Time, o: Observation,
                   a: Assignment)
    requires Runs.ValidStart(cfg, handled) && Runs.ValidRun(events) && ValidObservation(o)
    requires events != [] ==> Runs.End(events) <= now
    requires a in Given(Runs.RunOf(cfg, handled, events).Decide(now, o).1)
    ensures var h := HistoryAfter(Runs.RunOf(cfg, handled, events), HistoryOf(cfg, handled, events), now, o);
            h.trippedAt.Some? ==> h.trippedAt.value + cfg.breakerPause <= now
  {
    var m, h := Runs.RunOf(cfg, handled, events), HistoryOf(cfg, handled, events);
    RunIsTracked(cfg, handled, events);
    if events == [] {
      StartedIsOk(cfg, handled, now);
      TrackedLater(m, h, Runs.End(events), now);
      GivenIsPastPause(m, h, now, now, o, a);
    } else {
      GivenIsPastPause(m, h, Runs.End(events), now, o, a);
    }
  }

  /** Task i of the job is a give-away awaiting the result of its first issue. */
  ghost predicate FirstIssued(m: DeciderState, i: nat) {
    && m.job.Some? && i < |m.job.value.assignments|
    && m.job.value.assignments[i].header.status.Issued? && m.job.value.assignments[i].header.attempts == 1
  }

  /** now is a cooldown after the last of the attempts and, when the pause is no shorter than the
      window, a whole window more after the one breakerMax before it. */
  ghost predicate IsApart(cfg: Config, attempts: seq<Time>, now: Time) {
    var n := |attempts|;
    && (n > 0 ==> attempts[n - 1] + cfg.cooldown <= now)
    && (n > cfg.breakerMax && cfg.breakerPause >= cfg.breakerWindow ==>
          attempts[n - 1 - cfg.breakerMax] + cfg.breakerWindow + cfg.cooldown <= now)
  }

  lemma LastApart(cfg: Config, h: History, now: Time, key: AssignmentKey)
    requires cfg.Valid() && HistoryOk(cfg, h, now) && h.LimitedUntil(cfg, now, key).None?
    ensures IsApart(cfg, h.Of(key), now)
  {
    var attempts := h.Of(key);
    var n := |attempts|;
    if n > cfg.breakerMax && cfg.breakerPause >= cfg.breakerWindow {
      assert Apart(cfg, attempts);
      WindowSpans(cfg, attempts, n - 1 - cfg.breakerMax);
    }
  }

  lemma FirstIssueIsApartOnce(m: DeciderState, h: History, before: Time, now: Time, o: Observation, i: nat)
    requires Tracked(m, h, before) && before <= now && ValidObservation(o)
    requires Outstanding(m.Observe(now, o).0) == NO_ISSUE && FirstIssued(m.Decide(now, o).0, i)
    ensures IsApart(m.cfg, HistoryAfter(m, h, now, o).Of(m.Decide(now, o).0.job.value.assignments[i].Key()), now)
  {
    DecideKeepsTracked(m, h, before, now, o);
    DecideLatest(m, now, o);
    OneIssueAtATime(m, before, now, o);
    var m', h' := m.Decide(now, o).0, HistoryAfter(m, h, now, o);
    var a := m'.job.value.assignments[i].assignment;
    assert FirstIssueAllowed(m', now, a);
    PrunedAnswersAlike(m.cfg, m'.limits, h', now, a.Key());
    LastApart(m.cfg, h', now, a.Key());
  }

  /** Writes come in bouts, one a job. Over any run the first issue of a give-away comes a cooldown
      after the last bout counted for its name ended, and, when the pause is no shorter than the
      window, the bout breakerMax before that one ended a whole window earlier still: no interval of
      the window's length meets more than breakerMax + 1 bouts of a name. */
  lemma FirstIssueIsApart(cfg: Config, handled: Option<Handled>, events: seq<Runs.Event>, now: Time, o: Observation,
                          i: nat)
    requires Runs.ValidStart(cfg, handled) && Runs.ValidRun(events) && ValidObservation(o)
    requires events != [] && Runs.End(events) <= now
    requires var m := Runs.RunOf(cfg, handled, events);
             Outstanding(m.Observe(now, o).0) == NO_ISSUE && FirstIssued(m.Decide(now, o).0, i)
    ensures var m := Runs.RunOf(cfg, handled, events);
            var h := HistoryAfter(m, HistoryOf(cfg, handled, events), now, o);
            IsApart(cfg, h.Of(m.Decide(now, o).0.job.value.assignments[i].Key()), now)
  {
    RunIsTracked(cfg, handled, events);
    FirstIssueIsApartOnce(Runs.RunOf(cfg, handled, events), HistoryOf(cfg, handled, events), Runs.End(events), now, o,
                          i);
  }

  lemma UptoLater(h: History, now: Time, later: Time)
    requires Upto(h, now) && now <= later
    ensures Upto(h, later)
  {
  }
}
