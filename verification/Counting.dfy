/** What the limiter counts, told from the observations alone. */
module Counting {
  import opened Options
  import opened State
  import opened Policy
  import opened RateLimiting
  import opened Jobs
  import opened Deciding
  import opened DeciderInvariant
  import opened Provenance
  import opened TaskLife
  import opened Breaker
  import opened Runs
  import Waking

  /** Some write of key was outstanding, and o answers it with a success, a failure, or no result at
      all: with anything but NotHere. */
  ghost predicate Writes(m: DeciderState, o: Observation, key: AssignmentKey) {
    && o.GaveAway? && m.job.Some?
    && (exists i :: 0 <= i < |m.job.value.assignments| && m.job.value.assignments[i].header.status.Issued?
                    && m.job.value.assignments[i].assignment.Key() == key)
    && (key in o.results ==> o.results[key] != NotHere)
  }

  /** A record is saved while a job is in flight: the job ends. */
  ghost predicate EndsAt(m: DeciderState, e: Event)
    requires m.WellFormed() && ValidObservation(e.o)
  {
    m.job.Some? && exists d :: d in m.Decide(e.now, e.o).1 && d.save.Some?
  }

  /** key was written by the job now in flight. */
  ghost predicate Written(cfg: Config, handled: Option<Handled>, events: seq<Event>, key: AssignmentKey)
    requires ValidStart(cfg, handled) && ValidRun(events)
  {
    events != []
    && (LastStep(cfg, handled, events);
        var init, e := events[..|events| - 1], events[|events| - 1];
        var m := RunOf(cfg, handled, init);
        !EndsAt(m, e) && (Written(cfg, handled, init, key) || Writes(m, e.o, key)))
  }

  /** When jobs that wrote key ended: what its cooldown and the breaker are to look at. */
  ghost function Tries(cfg: Config, handled: Option<Handled>, events: seq<Event>, key: AssignmentKey): seq<Time>
    requires ValidStart(cfg, handled) && ValidRun(events)
  {
    if events == [] then []
    else
      LastStep(cfg, handled, events);
      var init, e := events[..|events| - 1], events[|events| - 1];
      var m := RunOf(cfg, handled, init);
      Tries(cfg, handled, init, key)
      + if EndsAt(m, e) && (Written(cfg, handled, init, key) || Writes(m, e.o, key)) then [e.now] else []
  }

  // A job ends exactly when a record is saved.

  lemma {:induction false} AdvanceSaves(m: DeciderState, now: Time)
    requires Inv(m, now) && m.job.Some?
    ensures (exists d :: d in m.AdvanceTime(now).1 && d.save.Some?) <==> EndsNow(m, now)
  {
    AdvanceTimeUnfolds(m, now);
    var t := m.TakeTurn(now);
    if EndsNow(m, now) {
      assert t.decisions[0] in m.AdvanceTime(now).1 && t.decisions[0].save.Some?;
    }
  }

  lemma EndsWhenSaved(m: DeciderState, before: Time, e: Event)
    requires Inv(m, before) && before <= e.now && ValidObservation(e.o) && m.job.Some?
    ensures var seen := m.Observe(e.now, e.o).0;
            seen.WellFormed() && seen.job.Some? && (EndsAt(m, e) <==> EndsNow(seen, e.now))
  {
    ObserveKeepsInv(m, e.now, e.o);
    ObservedReports(m, e.now, e.o);
    var (seen, ds) := m.Observe(e.now, e.o);
    AdvanceSaves(seen, e.now);
    assert ds == [] && ds + seen.AdvanceTime(e.now).1 == seen.AdvanceTime(e.now).1;
  }

  // Which tasks tried, as the answers say.

  /** The tasks marked as having tried are those whose key was written. */
  ghost predicate TriedAreWritten(j: JobState, written: iset<AssignmentKey>) {
    && (forall i | 0 <= i < |j.assignments| :: j.assignments[i].triedToMove <==> j.assignments[i].Key() in written)
    && (forall key | key in written :: HasTask(j, key))
  }

  ghost predicate HasTask(j: JobState, key: AssignmentKey) {
    exists i :: 0 <= i < |j.assignments| && j.assignments[i].assignment.Key() == key
  }

  ghost function WritesOf(m: DeciderState, o: Observation): iset<AssignmentKey> {
    iset key | Writes(m, o, key)
  }

  /** An answer marks a task as having tried exactly when it writes its key. */
  lemma ObservedTry(m: DeciderState, before: Time, e: Event, i: nat)
    requires Inv(m, before) && before <= e.now && ValidObservation(e.o) && m.job.Some?
    requires i < |m.job.value.assignments|
    ensures var t, seen := m.job.value.assignments[i], m.Observe(e.now, e.o).0;
            && seen.job.Some? && i < |seen.job.value.assignments|
            && seen.job.value.assignments[i].Key() == t.Key()
            && (seen.job.value.assignments[i].triedToMove <==> t.triedToMove || Writes(m, e.o, t.Key()))
  {
    var j := m.job.value;
    if Writes(m, e.o, j.assignments[i].Key()) {
      var k :| 0 <= k < |j.assignments| && j.assignments[k].header.status.Issued?
               && j.assignments[k].assignment.Key() == j.assignments[i].Key();
      assert k == i;
    }
  }

  lemma ObservedTries(m: DeciderState, before: Time, e: Event, written: iset<AssignmentKey>)
    requires Inv(m, before) && before <= e.now && ValidObservation(e.o) && m.job.Some?
    requires TriedAreWritten(m.job.value, written)
    ensures var seen := m.Observe(e.now, e.o).0;
            seen.job.Some? && TriedAreWritten(seen.job.value, written + WritesOf(m, e.o))
  {
    ObservedReports(m, e.now, e.o);
    var j, j' := m.job.value, m.Observe(e.now, e.o).0.job.value;
    forall i | 0 <= i < |j'.assignments|
      ensures j'.assignments[i].triedToMove <==> j'.assignments[i].Key() in written + WritesOf(m, e.o)
    {
      ObservedTry(m, before, e, i);
    }
    SameTasksHave(j, j');
    forall key | key in written + WritesOf(m, e.o)
      ensures HasTask(j', key)
    {
      assert HasTask(j, key);
    }
  }

  lemma UpdateKeepsTries(m: DeciderState, now: Time, written: iset<AssignmentKey>)
    requires m.WellFormed() && m.job.Some? && TriedAreWritten(m.job.value, written)
    ensures TriedAreWritten(m.UpdatedJob(now), written)
  {
    UpdatedJobIs(m, now);
    var j, j' := m.job.value, m.UpdatedJob(now);
    forall i | 0 <= i < |j'.assignments|
      ensures j'.assignments[i].triedToMove <==> j'.assignments[i].Key() in written
    {
      assert j'.assignments[i].triedToMove == j.assignments[i].triedToMove;
    }
    SameTasksHave(j, j');
  }

  lemma SameTasksHave(j: JobState, j': JobState)
    requires |j'.assignments| == |j.assignments|
    requires forall i | 0 <= i < |j.assignments| :: j'.assignments[i].assignment == j.assignments[i].assignment
    ensures forall key | HasTask(j, key) :: HasTask(j', key)
  {
    forall key | HasTask(j, key)
      ensures HasTask(j', key)
    {
      var i :| 0 <= i < |j.assignments| && j.assignments[i].assignment.Key() == key;
      assert j'.assignments[i].assignment.Key() == key;
    }
  }

  /** A job built at now has tried nothing. */
  ghost predicate Untried(m: DeciderState) {
    m.job.Some? ==> TriedAreWritten(m.job.value, iset{})
  }

  lemma BuildTurnTriesNothing(m: DeciderState, now: Time)
    requires Between(m, now) && m.job.None?
    ensures var t := m.TakeTurn(now);
            t.m.WellFormed() && Untried(t.m) && (t.m.job.Some? ==> t.m.JustBuilt(now))
  {
    TurnKeepsWellFormed(m, now);
    var t := m.TakeTurn(now);
    if t.m.job.Some? {
      BuiltIsOk(m, now);
      forall i | 0 <= i < |t.m.job.value.assignments|
        ensures !t.m.job.value.assignments[i].triedToMove
      {
        assert t.m.job.value.assignments[i].header.status.Pending?;
      }
    }
  }

  lemma BuiltTurnTriesNothing(m: DeciderState, now: Time)
    requires Between(m, now) && m.job.Some? && m.JustBuilt(now) && Untried(m)
    ensures var t := m.TakeTurn(now);
            Untried(t.m) && (!t.stop ==> t.m.job.None?)
  {
    FreshJobIsUpToDate(m, now);
  }

  lemma BuiltTriesNothing(m: DeciderState, now: Time)
    requires Between(m, now) && (m.job.Some? ==> m.JustBuilt(now)) && Untried(m)
    ensures Untried(m.AdvanceTime(now).0)
    decreases m.OldJob(now), m.OpenEdge(), m.UnhandledCount(), m.DueClaim(now), m.JobToBuild()
  {
    AdvanceTimeUnfolds(m, now);
    TurnIssues(m, now);
    var t := m.TakeTurn(now);
    if m.job.Some? {
      BuiltTurnTriesNothing(m, now);
    } else {
      BuildTurnTriesNothing(m, now);
    }
    if !t.stop {
      TurnDecreases(m, now);
      BuiltTriesNothing(t.m, now);
    }
  }

  lemma {:induction false} TriedKeysAre(tasks: seq<AssignmentTask>, key: AssignmentKey)
    ensures key in TriedKeys(tasks) <==> exists i :: 0 <= i < |tasks| && tasks[i].triedToMove && tasks[i].Key() == key
  {
    if tasks != [] {
      var n := |tasks| - 1;
      TriedKeysAre(tasks[..n], key);
      assert forall i | 0 <= i < n :: tasks[..n][i] == tasks[i];
    }
  }

  /** What one observation makes of the keys written. */
  ghost function WrittenAfter(m: DeciderState, e: Event, written: iset<AssignmentKey>): iset<AssignmentKey>
    requires m.WellFormed() && ValidObservation(e.o)
  {
    if EndsAt(m, e) then iset{} else written + WritesOf(m, e.o)
  }

  ghost predicate WrittenOk(m: DeciderState, written: iset<AssignmentKey>) {
    if m.job.Some? then TriedAreWritten(m.job.value, written) else written == iset{}
  }

  lemma IdleStepTries(m: DeciderState, before: Time, e: Event)
    requires Inv(m, before) && before <= e.now && ValidObservation(e.o) && m.job.None?
    ensures WrittenOk(m.Decide(e.now, e.o).0, WrittenAfter(m, e, iset{}))
  {
    ObserveKeepsInv(m, e.now, e.o);
    BuiltTriesNothing(m.Observe(e.now, e.o).0, e.now);
    assert WrittenAfter(m, e, iset{}) == iset{};
  }

  lemma EndStepTries(m: DeciderState, before: Time, e: Event)
    requires Inv(m, before) && before <= e.now && ValidObservation(e.o) && m.job.Some? && EndsAt(m, e)
    ensures WrittenOk(m.Decide(e.now, e.o).0, iset{})
  {
    ObserveKeepsInv(m, e.now, e.o);
    EndsWhenSaved(m, before, e);
    var seen := m.Observe(e.now, e.o).0;
    AdvanceTimeUnfolds(seen, e.now);
    TurnIssues(seen, e.now);
    BuiltTriesNothing(seen.TakeTurn(e.now).m, e.now);
  }

  lemma FlightStepTries(m: DeciderState, before: Time, e: Event, written: iset<AssignmentKey>)
    requires Inv(m, before) && before <= e.now && ValidObservation(e.o) && m.job.Some? && !EndsAt(m, e)
    requires TriedAreWritten(m.job.value, written)
    ensures WrittenOk(m.Decide(e.now, e.o).0, written + WritesOf(m, e.o))
  {
    ObserveKeepsInv(m, e.now, e.o);
    EndsWhenSaved(m, before, e);
    ObservedTries(m, before, e, written);
    var seen := m.Observe(e.now, e.o).0;
    UpdateKeepsTries(seen, e.now, written + WritesOf(m, e.o));
    StaysInFlight(seen, e.now);
    SameTasksHave(seen.UpdatedJob(e.now), Waking.InFlight(seen, e.now));
  }

  lemma StepTries(m: DeciderState, before: Time, e: Event, written: iset<AssignmentKey>)
    requires Inv(m, before) && before <= e.now && ValidObservation(e.o) && WrittenOk(m, written)
    ensures WrittenOk(m.Decide(e.now, e.o).0, WrittenAfter(m, e, written))
  {
    if m.job.None? {
      IdleStepTries(m, before, e);
    } else if EndsAt(m, e) {
      EndStepTries(m, before, e);
    } else {
      FlightStepTries(m, before, e, written);
    }
  }

  ghost function WrittenIn(cfg: Config, handled: Option<Handled>, events: seq<Event>): iset<AssignmentKey>
    requires ValidStart(cfg, handled) && ValidRun(events)
  {
    iset key | Written(cfg, handled, events, key)
  }

  lemma WrittenUnfolds(cfg: Config, handled: Option<Handled>, events: seq<Event>)
    requires ValidStart(cfg, handled) && ValidRun(events) && events != []
    ensures ValidRun(events[..|events| - 1])
    ensures var init, e := events[..|events| - 1], events[|events| - 1];
            && ValidObservation(e.o)
            && WrittenIn(cfg, handled, events)
            == WrittenAfter(RunOf(cfg, handled, init), e, WrittenIn(cfg, handled, init))
  {
    LastStep(cfg, handled, events);
  }

  /** The tasks marked as having tried are those of the keys written, over any run. */
  lemma {:induction false} RunTries(cfg: Config, handled: Option<Handled>, events: seq<Event>)
    requires ValidStart(cfg, handled) && ValidRun(events)
    ensures WrittenOk(RunOf(cfg, handled, events), WrittenIn(cfg, handled, events))
  {
    if events != [] {
      LastStep(cfg, handled, events);
      var init, e := events[..|events| - 1], events[|events| - 1];
      RunTries(cfg, handled, init);
      WrittenUnfolds(cfg, handled, events);
      StepTries(RunOf(cfg, handled, init), e.now, e, WrittenIn(cfg, handled, init));
    }
  }

  /** What is counted at an observation: the keys written by the job that ends there. */
  lemma CountedAreWritten(m: DeciderState, before: Time, e: Event, written: iset<AssignmentKey>, key: AssignmentKey)
    requires Inv(m, before) && before <= e.now && ValidObservation(e.o) && WrittenOk(m, written)
    ensures key in Counted(m.Observe(e.now, e.o).0, e.now) <==> EndsAt(m, e) && key in written + WritesOf(m, e.o)
  {
    if m.job.Some? {
      EndsWhenSaved(m, before, e);
      ObserveKeepsInv(m, e.now, e.o);
      ObservedTries(m, before, e, written);
      var seen := m.Observe(e.now, e.o).0;
      UpdateKeepsTries(seen, e.now, written + WritesOf(m, e.o));
      TriedKeysAre(seen.UpdatedJob(e.now).assignments, key);
      if EndsAt(m, e) && key in written + WritesOf(m, e.o) {
        assert HasTask(seen.UpdatedJob(e.now), key);
      }
    }
  }

  // The history counted is the history observed.

  lemma {:induction false} RecordAllOf(cfg: Config, h: History, now: Time, keys: seq<AssignmentKey>,
                                       key: AssignmentKey)
    requires forall i, j | 0 <= i < j < |keys| :: keys[i] != keys[j]
    ensures h.RecordAll(cfg, now, keys).Of(key) == h.Of(key) + if key in keys then [now] else []
  {
    if keys != [] {
      var init, last := keys[..|keys| - 1], keys[|keys| - 1];
      RecordAllOf(cfg, h, now, init, key);
      assert keys == init + [last];
      assert last == key ==> key !in init;
      assert h.Of(key) + [] == h.Of(key);
    }
  }

  /** What the limiter is told of is what the answers say was written: a name counts when a job ends
      exactly if an answer to one of that job's issues of it was anything but NotHere. */
  lemma {:induction false} TriesAreCounted(cfg: Config, handled: Option<Handled>, events: seq<Event>,
                                           key: AssignmentKey)
    requires ValidStart(cfg, handled) && ValidRun(events)
    ensures HistoryOf(cfg, handled, events).Of(key) == Tries(cfg, handled, events, key)
  {
    if events != [] {
      LastStep(cfg, handled, events);
      var init, e := events[..|events| - 1], events[|events| - 1];
      TriesAreCounted(cfg, handled, init, key);
      CountStep(cfg, handled, init, e, key);
    }
  }

  lemma CountStep(cfg: Config, handled: Option<Handled>, init: seq<Event>, e: Event, key: AssignmentKey)
    requires ValidStart(cfg, handled) && ValidRun(init) && ValidObservation(e.o)
    requires Inv(RunOf(cfg, handled, init), e.now) && (init != [] ==> End(init) <= e.now)
    ensures var m, h := RunOf(cfg, handled, init), HistoryOf(cfg, handled, init);
            var written := Written(cfg, handled, init, key) || Writes(m, e.o, key);
            HistoryAfter(m, h, e.now, e.o).Of(key) == h.Of(key) + if EndsAt(m, e) && written then [e.now] else []
  {
    var m, h := RunOf(cfg, handled, init), HistoryOf(cfg, handled, init);
    RunIsTracked(cfg, handled, init);
    TrackedLater(m, h, End(init), e.now);
    RunTries(cfg, handled, init);
    CountedAreWritten(m, e.now, e, WrittenIn(cfg, handled, init), key);
    ObserveKeepsTracked(m, h, e.now, e.now, e.o);
    var seen := m.Observe(e.now, e.o).0;
    CountedAreReady(seen, h, e.now);
    RecordAllOf(m.cfg, h, e.now, Counted(seen, e.now), key);
  }

  // When the breaker trips, by position.

  /** Try i is the last of breakerMax within the window. */
  predicate Trip(cfg: Config, tries: seq<Time>, i: nat)
    requires i < |tries|
  {
    i + 1 >= cfg.breakerMax && cfg.breakerMax >= 1 && tries[i + 1 - cfg.breakerMax] > tries[i] - cfg.breakerWindow
  }

  lemma {:induction false} AfterSorted(attempts: seq<Time>, k: nat, cutoff: Time)
    requires RateLimiting.Sorted(attempts) && k < |attempts|
    ensures attempts[k] > cutoff <==> |After(attempts, cutoff)| >= |attempts| - k
    decreases |attempts|
  {
    var n := |attempts| - 1;
    if k < n {
      AfterSorted(attempts[..n], k, cutoff);
    } else if n > 0 {
      AfterSorted(attempts[..n], n - 1, cutoff);
    }
  }

  lemma AfterIsFew(attempts: seq<Time>, cutoff: Time)
    ensures |After(attempts, cutoff)| <= |attempts|
  {
    if attempts != [] {
      AfterIsFew(attempts[..|attempts| - 1], cutoff);
    }
  }

  lemma TripsByPosition(cfg: Config, attempts: seq<Time>, i: nat)
    requires cfg.Valid() && RateLimiting.Sorted(attempts) && i < |attempts|
    ensures Trips(cfg, attempts, i) <==> Trip(cfg, attempts, i)
  {
    var made, cutoff := attempts[..i + 1], attempts[i] - cfg.breakerWindow;
    AfterIsFew(made, cutoff);
    if i + 1 >= cfg.breakerMax {
      AfterSorted(made, i + 1 - cfg.breakerMax, cutoff);
    }
  }

  /** The trip on record is a try that tripped. */
  ghost predicate TripIsReal(cfg: Config, h: History) {
    h.trippedAt.Some? ==>
      exists key, i: nat :: i < |h.Of(key)| && Trips(cfg, h.Of(key), i) && h.Of(key)[i] == h.trippedAt.value
  }

  lemma RecordKeepsTrip(cfg: Config, h: History, now: Time, key: AssignmentKey)
    requires TripIsReal(cfg, h)
    ensures TripIsReal(cfg, h.Record(cfg, now, key))
  {
    var h' := h.Record(cfg, now, key);
    var n := |h.Of(key)|;
    if Trips(cfg, h'.Of(key), n) {
      assert h'.Of(key)[n] == now;
    } else if h.trippedAt.Some? {
      var k, i: nat :| i < |h.Of(k)| && Trips(cfg, h.Of(k), i) && h.Of(k)[i] == h.trippedAt.value;
      if k == key {
        TripsOfPrefix(cfg, h.Of(key), now);
      }
      assert i < |h'.Of(k)| && Trips(cfg, h'.Of(k), i) && h'.Of(k)[i] == h'.trippedAt.value;
    }
  }

  lemma {:induction false} RecordAllKeepsTrip(cfg: Config, h: History, now: Time, keys: seq<AssignmentKey>)
    requires TripIsReal(cfg, h)
    ensures TripIsReal(cfg, h.RecordAll(cfg, now, keys))
  {
    if keys != [] {
      RecordAllKeepsTrip(cfg, h, now, keys[..|keys| - 1]);
      RecordKeepsTrip(cfg, h.RecordAll(cfg, now, keys[..|keys| - 1]), now, keys[|keys| - 1]);
    }
  }

  lemma {:induction false} RunTripIsReal(cfg: Config, handled: Option<Handled>, events: seq<Event>)
    requires ValidStart(cfg, handled) && ValidRun(events)
    ensures TripIsReal(cfg, HistoryOf(cfg, handled, events))
  {
    if events != [] {
      LastStep(cfg, handled, events);
      var init, e := events[..|events| - 1], events[|events| - 1];
      RunTripIsReal(cfg, handled, init);
      var m := RunOf(cfg, handled, init);
      RecordAllKeepsTrip(cfg, HistoryOf(cfg, handled, init), e.now, Counted(m.Observe(e.now, e.o).0, e.now));
    }
  }

  // The limits, over the tries observed.

  /** key rests at now: its cooldown is not over, or a trip of some name still pauses every name. */
  ghost predicate Rests(cfg: Config, handled: Option<Handled>, events: seq<Event>, key: AssignmentKey, now: Time)
    requires ValidStart(cfg, handled) && ValidRun(events)
  {
    Cools(cfg, Tries(cfg, handled, events, key), now) || Paused(cfg, handled, events, now)
  }

  predicate Cools(cfg: Config, tries: seq<Time>, now: Time) {
    tries != [] && now < tries[|tries| - 1] + cfg.cooldown
  }

  ghost predicate Paused(cfg: Config, handled: Option<Handled>, events: seq<Event>, now: Time)
    requires ValidStart(cfg, handled) && ValidRun(events)
  {
    exists k, i: nat :: Pauses(cfg, Tries(cfg, handled, events, k), i, now)
  }

  /** Try i tripped the breaker and its pause is not over at now. */
  predicate Pauses(cfg: Config, tries: seq<Time>, i: nat, now: Time) {
    i < |tries| && Trip(cfg, tries, i) && now < tries[i] + cfg.breakerPause
  }

  lemma TriesAreSorted(cfg: Config, handled: Option<Handled>, events: seq<Event>, key: AssignmentKey)
    requires ValidStart(cfg, handled) && ValidRun(events)
    ensures var h := HistoryOf(cfg, handled, events);
            && HistoryOk(cfg, h, End(events)) && h.Of(key) == Tries(cfg, handled, events, key)
            && RateLimiting.Sorted(h.Of(key)) && Apart(cfg, h.Of(key)) && TripsSeen(cfg, h, h.Of(key))
  {
    RunIsTracked(cfg, handled, events);
    TriesAreCounted(cfg, handled, events, key);
  }

  /** The rate limit over the tries observed: two of one name are a cooldown apart and, with the
      pause no shorter than the window, any breakerMax + 1 of them span at least the window. */
  lemma TriesAreApart(cfg: Config, handled: Option<Handled>, events: seq<Event>, key: AssignmentKey)
    requires ValidStart(cfg, handled) && ValidRun(events)
    ensures var tries := Tries(cfg, handled, events, key);
            && (forall i | 0 < i < |tries| :: tries[i] - tries[i - 1] >= cfg.cooldown)
            && (cfg.breakerPause >= cfg.breakerWindow ==>
                  forall i | 0 <= i && i + cfg.breakerMax < |tries| ::
                    tries[i + cfg.breakerMax] - tries[i] >= cfg.breakerWindow)
  {
    RateLimitHolds(cfg, handled, events, key);
    TriesAreCounted(cfg, handled, events, key);
  }

  lemma PausedByTries(cfg: Config, handled: Option<Handled>, events: seq<Event>, now: Time)
    requires ValidStart(cfg, handled) && ValidRun(events)
    ensures var h := HistoryOf(cfg, handled, events);
            h.trippedAt.Some? && now < h.trippedAt.value + cfg.breakerPause <==> Paused(cfg, handled, events, now)
  {
    var h := HistoryOf(cfg, handled, events);
    RunTripIsReal(cfg, handled, events);
    if h.trippedAt.Some? && now < h.trippedAt.value + cfg.breakerPause {
      var k, i: nat :| i < |h.Of(k)| && Trips(cfg, h.Of(k), i) && h.Of(k)[i] == h.trippedAt.value;
      TriesAreSorted(cfg, handled, events, k);
      TripsByPosition(cfg, h.Of(k), i);
      assert Pauses(cfg, Tries(cfg, handled, events, k), i, now);
    }
    if k, i: nat :| Pauses(cfg, Tries(cfg, handled, events, k), i, now) {
      TriesAreSorted(cfg, handled, events, k);
      TripsByPosition(cfg, h.Of(k), i);
    }
  }

  predicate Resting(cfg: Config, h: History, key: AssignmentKey, now: Time) {
    || Cools(cfg, h.Of(key), now)
    || (h.trippedAt.Some? && now < h.trippedAt.value + cfg.breakerPause)
  }

  lemma LimitMeans(cfg: Config, h: History, now: Time, key: AssignmentKey)
    ensures h.LimitedUntil(cfg, now, key).Some? <==> Resting(cfg, h, key, now)
  {
  }

  lemma RestsMeans(cfg: Config, handled: Option<Handled>, events: seq<Event>, key: AssignmentKey, now: Time)
    requires ValidStart(cfg, handled) && ValidRun(events)
    ensures Rests(cfg, handled, events, key, now) <==> Resting(cfg, HistoryOf(cfg, handled, events), key, now)
  {
    TriesAreCounted(cfg, handled, events, key);
    PausedByTries(cfg, handled, events, now);
  }

  /** The limiter's answer, at any time from the last observation on, is whether the name rests. */
  lemma LimitedWhileResting(cfg: Config, handled: Option<Handled>, events: seq<Event>, key: AssignmentKey, now: Time)
    requires ValidStart(cfg, handled) && ValidRun(events) && End(events) <= now
    ensures RunOf(cfg, handled, events).limits.LimitedUntil(cfg, now, key).Some? <==>
              Rests(cfg, handled, events, key, now)
  {
    LimitMeans(cfg, HistoryOf(cfg, handled, events), now, key);
    LimitsAlike(cfg, handled, events, key, now);
    RestsMeans(cfg, handled, events, key, now);
  }

  lemma LimitsAlike(cfg: Config, handled: Option<Handled>, events: seq<Event>, key: AssignmentKey, now: Time)
    requires ValidStart(cfg, handled) && ValidRun(events) && End(events) <= now
    ensures RunOf(cfg, handled, events).limits.LimitedUntil(cfg, now, key)
         == HistoryOf(cfg, handled, events).LimitedUntil(cfg, now, key)
  {
    RateLimitHolds(cfg, handled, events, key);
  }

  /** What the last observation of a run made the host give away. */
  ghost function GivenAt(cfg: Config, handled: Option<Handled>, events: seq<Event>): seq<Assignment>
    requires ValidStart(cfg, handled) && ValidRun(events) && events != []
  {
    LastStep(cfg, handled, events);
    var e := events[|events| - 1];
    Given(RunOf(cfg, handled, events[..|events| - 1]).Decide(e.now, e.o).1)
  }

  /** No name is given away, first issue or retry, while a trip of any name pauses it. */
  lemma NothingGivenInPause(cfg: Config, handled: Option<Handled>, events: seq<Event>, a: Assignment,
                            key: AssignmentKey, i: nat)
    requires ValidStart(cfg, handled) && ValidRun(events) && events != [] && a in GivenAt(cfg, handled, events)
    ensures !Pauses(cfg, Tries(cfg, handled, events, key), i, End(events))
  {
    LastStep(cfg, handled, events);
    var init, e := events[..|events| - 1], events[|events| - 1];
    PausesHold(cfg, handled, init, e.now, e.o, a);
    if Pauses(cfg, Tries(cfg, handled, events, key), i, End(events)) {
      PausedByTries(cfg, handled, events, End(events));
    }
  }

  /** A give-away is first issued only when its name does not rest. */
  lemma FirstIssuesAreRested(cfg: Config, handled: Option<Handled>, events: seq<Event>, i: nat)
    requires ValidStart(cfg, handled) && ValidRun(events) && events != []
    requires ValidRun(events[..|events| - 1])
    requires var m, e := RunOf(cfg, handled, events[..|events| - 1]), events[|events| - 1];
             Outstanding(m.Observe(e.now, e.o).0) == NO_ISSUE && FirstIssued(RunOf(cfg, handled, events), i)
    ensures !Rests(cfg, handled, events, RunOf(cfg, handled, events).job.value.assignments[i].Key(), End(events))
  {
    LastStep(cfg, handled, events);
    var m, e := RunOf(cfg, handled, events[..|events| - 1]), events[|events| - 1];
    var m' := RunOf(cfg, handled, events);
    OneIssueAtATime(m, e.now, e.now, e.o);
    assert FirstIssueAllowed(m', e.now, m'.job.value.assignments[i].assignment);
    LimitedWhileResting(cfg, handled, events, m'.job.value.assignments[i].Key(), e.now);
  }

  /** And one is held back only while it rests: when no job is in flight after an observation, each
      assignment of another host is handled at its seq, or its assignee not live, or its name rests. */
  lemma HeldOnlyToRest(cfg: Config, handled: Option<Handled>, events: seq<Event>, a: Assignment)
    requires ValidStart(cfg, handled) && ValidRun(events) && events != []
    requires var m := RunOf(cfg, handled, events);
             m.job.None? && m.latest.Some? && a in m.latest.value.assignments && a.assignee != cfg.id
    ensures var m := RunOf(cfg, handled, events);
            && m.handled.Some?
            && (|| (a.Key() in m.handled.value.seqs && m.handled.value.seqs[a.Key()] == a.seqno)
                || !(a.assignee in m.latest.value.live && m.latest.value.live[a.assignee])
                || Rests(cfg, handled, events, a.Key(), End(events)))
  {
    LastStep(cfg, handled, events);
    var init, e := events[..|events| - 1], events[|events| - 1];
    Waking.IdleMeansNothingLeft(RunOf(cfg, handled, init), e.now, e.now, e.o);
    LimitedWhileResting(cfg, handled, events, a.Key(), e.now);
  }
}
