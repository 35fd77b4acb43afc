/** What an ownership change runs, told from the flags and the states alone. */
module Switching {
  import opened Options
  import opened State
  import opened Jobs
  import opened Deciding
  import opened DeciderInvariant
  import opened Provenance
  import opened TaskLife

  /** s gives this host an ownership that is not the one on record. */
  predicate Arrives(me: HostId, rec: Ownership, s: ServerState) {
    s.owner == me && rec != Ownership(me, s.activation)
  }

  /** s shows that the ownership on record, this host's, is another's now. */
  predicate Leaves(me: HostId, rec: Ownership, s: ServerState) {
    rec.owner == me && s.owner != "" && s.owner != me
  }

  /** The commands of -A under an activation: a take where the flag spells one, else its argv. */
  ghost predicate Activates(argvs: seq<seq<string>>, activation: int, cmds: seq<Command>) {
    && |cmds| == |argvs|
    && forall i | 0 <= i < |argvs| ::
         argvs[i] != []
         && cmds[i] == if argvs[i][0] == "take-screen" then Command([], activation, 0)
                       else if argvs[i][0] == "take-hid" then Command([], 0, activation)
                       else Command(argvs[i], 0, 0)
  }

  /** The commands of -D: every argv as it is. */
  ghost predicate Deactivates(argvs: seq<seq<string>>, cmds: seq<Command>) {
    |cmds| == |argvs| && forall i | 0 <= i < |argvs| :: cmds[i] == Command(argvs[i], 0, 0)
  }

  /** The commands m, with no job in flight, is called on to run. */
  ghost predicate RunsTheFlags(m: DeciderState, cmds: seq<Command>)
    requires m.handled.Some? && m.latest.Some?
  {
    var rec, s := m.handled.value.ownership, m.latest.value;
    if Arrives(m.cfg.id, rec, s) then Activates(m.cfg.onActivation, s.activation, cmds)
    else if Leaves(m.cfg.id, rec, s) then Deactivates(m.cfg.onDeactivation, cmds)
    else cmds == []
  }

  ghost predicate Changes(m: DeciderState)
    requires m.handled.Some? && m.latest.Some?
  {
    Arrives(m.cfg.id, m.handled.value.ownership, m.latest.value)
    || Leaves(m.cfg.id, m.handled.value.ownership, m.latest.value)
  }

  function CommandsOf(j: JobState): seq<Command> {
    seq(|j.commands|, i requires 0 <= i < |j.commands| => j.commands[i].cmd)
  }

  /** The job an idle decider builds, in the flags' terms. */
  lemma BuiltFromFlags(m: DeciderState, now: Time)
    requires m.WellFormed() && m.latest.Some?
    ensures Changes(m) ==>
              && m.Reconcile(now).Some?
              && m.Reconcile(now).value.record
              == Record(Some(Ownership(m.latest.value.owner, m.latest.value.activation)), map[])
              && m.Reconcile(now).value.assignments == []
    ensures m.Reconcile(now).Some? ==>
              var j := m.Reconcile(now).value;
              && (!Changes(m) ==> j.record.ownership.None?)
              && (forall i | 0 <= i < |j.commands| :: j.commands[i].header == FRESH)
              && RunsTheFlags(m, CommandsOf(j))
  {
  }

  lemma {:induction false} AllDue(tasks: seq<CommandTask>, now: Time, maxAttempts: nat, spacing: Time)
    requires forall i | 0 <= i < |tasks| :: tasks[i].header == FRESH
    ensures DueCommands(tasks, now, maxAttempts, spacing)
         == seq(|tasks|, i requires 0 <= i < |tasks| => tasks[i].cmd)
  {
    if tasks != [] {
      AllDue(tasks[..|tasks| - 1], now, maxAttempts, spacing);
    }
  }

  lemma {:induction false} CommandsConcat(a: seq<Decision>, b: seq<Decision>)
    ensures Commands(a + b) == Commands(a) + Commands(b)
  {
    if b == [] {
      assert a + b == a;
    } else {
      var init, last := b[..|b| - 1], b[|b| - 1];
      CommandsConcat(a, init);
      assert (a + b)[..|a + b| - 1] == a + init && (a + b)[|a + b| - 1] == last;
      assert Commands(a) + (Commands(init) + last.run) == Commands(a) + Commands(init) + last.run;
    }
  }

  lemma CommandsOfOne(d: Decision)
    ensures Commands([d]) == d.run
  {
    assert [d][..0] == [];
  }

  lemma {:induction false} AllGiven(tasks: seq<AssignmentTask>, now: Time, maxAttempts: nat, spacing: Time)
    requires forall i | 0 <= i < |tasks| :: tasks[i].header == FRESH
    ensures DueAssignments(tasks, now, maxAttempts, spacing)
         == seq(|tasks|, i requires 0 <= i < |tasks| => tasks[i].assignment)
  {
    if tasks != [] {
      AllGiven(tasks[..|tasks| - 1], now, maxAttempts, spacing);
    }
  }

  lemma GivenOfOne(d: Decision)
    ensures Given([d]) == d.giveAway
  {
    assert [d][..0] == [];
  }

  function AssignmentsOf(j: JobState): seq<Assignment> {
    seq(|j.assignments|, i requires 0 <= i < |j.assignments| => j.assignments[i].assignment)
  }

  /** A turn decides one thing at most. */
  lemma OneDecision(t: Turn)
    requires |t.decisions| <= 1
    ensures Commands(t.decisions) == if t.decisions == [] then [] else t.decisions[0].run
    ensures Given(t.decisions) == if t.decisions == [] then [] else t.decisions[0].giveAway
  {
    if t.decisions != [] {
      CommandsOfOne(t.decisions[0]);
      GivenOfOne(t.decisions[0]);
      assert t.decisions == [t.decisions[0]];
    }
  }

  /** Nothing of a job just built was tried yet. */
  lemma BuiltIsFresh(m: DeciderState, now: Time)
    requires m.WellFormed() && m.JustBuilt(now)
    ensures var j := m.job.value;
            && m.UpdatedJob(now) == j && !j.Busy()
            && (j.Settled(m.cfg.MaxAttempts()) <==> j.commands == [] && j.assignments == [])
            && DueCommands(j.commands, now, m.cfg.MaxAttempts(), m.cfg.retrySpacing) == CommandsOf(j)
            && DueAssignments(j.assignments, now, m.cfg.MaxAttempts(), m.cfg.retrySpacing) == AssignmentsOf(j)
  {
    FreshJobIsUpToDate(m, now);
    BuiltIsOk(m, now);
    var j := m.job.value;
    AllDue(j.commands, now, m.cfg.MaxAttempts(), m.cfg.retrySpacing);
    AllGiven(j.assignments, now, m.cfg.MaxAttempts(), m.cfg.retrySpacing);
    if j.commands != [] {
      assert !j.commands[0].header.Settled(m.cfg.MaxAttempts());
    } else if j.assignments != [] {
      assert !j.assignments[0].header.Settled(m.cfg.MaxAttempts());
    }
  }

  /** The turn that follows the building of a job: with no task it ends, else all of it is issued. */
  lemma BuiltTurn(m: DeciderState, now: Time)
    requires m.WellFormed() && m.JustBuilt(now)
    ensures var t, j := m.TakeTurn(now), m.job.value;
            && Commands(t.decisions) == CommandsOf(j) && Given(t.decisions) == AssignmentsOf(j)
            && (j.commands == [] && j.assignments == [] ==>
                  && !t.stop && t.m.job.None? && t.m.cfg == m.cfg && t.m.latest == m.latest && t.m.limits == m.limits
                  && t.m.handled == Some(m.handled.value.Add(j.record)))
            && (j.commands != [] || j.assignments != [] ==> t.stop)
  {
    BuiltIsFresh(m, now);
    OneDecision(m.TakeTurn(now));
  }

  /** What is on record once m advanced to m', having run cmds. */
  ghost predicate OnRecord(m: DeciderState, m': DeciderState, cmds: seq<Command>)
    requires m.handled.Some? && m.latest.Some?
  {
    && m'.handled.Some?
    && (!Changes(m) ==> m'.handled.value.ownership == m.handled.value.ownership)
    && (Changes(m) && cmds == [] ==>
          m'.handled.value.ownership == Ownership(m.latest.value.owner, m.latest.value.activation))
    && (Changes(m) && cmds != [] ==>
          && m'.handled.value.ownership == m.handled.value.ownership && m'.job.Some?
          && m'.job.value.record.ownership == Some(Ownership(m.latest.value.owner, m.latest.value.activation)))
  }

  ghost predicate Ran(m: DeciderState, m': DeciderState, cmds: seq<Command>)
    requires m.handled.Some? && m.latest.Some?
  {
    RunsTheFlags(m, cmds) && OnRecord(m, m', cmds)
  }

  lemma IdleTurn(m: DeciderState, now: Time)
    requires m.WellFormed() && m.job.None? && m.latest.Some?
    ensures var t := m.TakeTurn(now);
            && Commands(t.decisions) == [] && Given(t.decisions) == []
            && t.m.cfg == m.cfg && t.m.latest == m.latest && t.m.handled == m.handled
            && (t.m.job.Some? ==> !t.stop && t.m.WellFormed() && t.m.JustBuilt(now) && t.m.job == m.Reconcile(now))
            && (t.stop ==> t.m == m && m.Reconcile(now).None?)
  {
    TurnKeepsWellFormed(m, now);
    OneDecision(m.TakeTurn(now));
  }

  /** A turn that runs nothing adds nothing. */
  lemma TurnRunsNothing(m: DeciderState, now: Time)
    requires m.WellFormed() && !m.TakeTurn(now).stop && Commands(m.TakeTurn(now).decisions) == []
    ensures var t := m.TakeTurn(now);
            && t.m.WellFormed() && m.AdvanceTime(now).0 == t.m.AdvanceTime(now).0
            && Commands(m.AdvanceTime(now).1) == Commands(t.m.AdvanceTime(now).1)
  {
    AdvanceTimeUnfolds(m, now);
    var t := m.TakeTurn(now);
    CommandsConcat(t.decisions, t.m.AdvanceTime(now).1);
    assert [] + Commands(t.m.AdvanceTime(now).1) == Commands(t.m.AdvanceTime(now).1);
  }

  lemma StopRuns(m: DeciderState, now: Time)
    requires m.WellFormed() && m.job.None? && m.latest.Some? && m.TakeTurn(now).stop
    ensures Ran(m, m.AdvanceTime(now).0, Commands(m.AdvanceTime(now).1))
  {
    AdvanceTimeUnfolds(m, now);
    IdleTurn(m, now);
    BuiltFromFlags(m, now);
  }

  lemma SameFlags(m: DeciderState, n: DeciderState, m': DeciderState, cmds: seq<Command>)
    requires m.handled.Some? && m.latest.Some? && n.cfg == m.cfg && n.handled == m.handled && n.latest == m.latest
    ensures Ran(n, m', cmds) ==> Ran(m, m', cmds)
  {
  }

  /** An idle decider, or one that has just built its job, advances. */
  lemma IdleRuns(m: DeciderState, now: Time)
    requires Between(m, now) && m.latest.Some? && m.job.None?
    ensures Ran(m, m.AdvanceTime(now).0, Commands(m.AdvanceTime(now).1))
    decreases m.OldJob(now), m.OpenEdge(), m.UnhandledCount(), m.DueClaim(now), m.JobToBuild(), 1
  {
    IdleTurn(m, now);
    var t := m.TakeTurn(now);
    if t.stop {
      StopRuns(m, now);
    } else {
      TurnIssues(m, now);
      TurnDecreases(m, now);
      TurnRunsNothing(m, now);
      if t.m.job.Some? {
        BuiltRuns(t.m, now);
      } else {
        IdleRuns(t.m, now);
      }
      SameFlags(m, t.m, m.AdvanceTime(now).0, Commands(m.AdvanceTime(now).1));
    }
  }

  /** A job with nothing to do just puts its change on record. */
  lemma RecordedAtOnce(m: DeciderState, n: DeciderState, m': DeciderState, cmds: seq<Command>, now: Time)
    requires m.WellFormed() && m.JustBuilt(now) && m.job.value.commands == []
    requires n.cfg == m.cfg && n.latest == m.latest && n.handled == Some(m.handled.value.Add(m.job.value.record))
    requires Ran(n, m', cmds)
    ensures Ran(m, m', cmds)
  {
    BuiltFromFlags(m, now);
  }

  lemma BuiltStopRuns(m: DeciderState, now: Time)
    requires m.WellFormed() && m.JustBuilt(now) && m.TakeTurn(now).stop
    ensures Ran(m, m.AdvanceTime(now).0, Commands(m.AdvanceTime(now).1))
  {
    AdvanceTimeUnfolds(m, now);
    BuiltTurn(m, now);
    BuiltFromFlags(m, now);
    BuiltIsFresh(m, now);
  }

  lemma BuiltRuns(m: DeciderState, now: Time)
    requires Between(m, now) && m.JustBuilt(now)
    ensures Ran(m, m.AdvanceTime(now).0, Commands(m.AdvanceTime(now).1))
    decreases m.OldJob(now), m.OpenEdge(), m.UnhandledCount(), m.DueClaim(now), m.JobToBuild(), 0
  {
    BuiltTurn(m, now);
    var t := m.TakeTurn(now);
    if t.stop {
      BuiltStopRuns(m, now);
    } else {
      TurnIssues(m, now);
      TurnDecreases(m, now);
      TurnRunsNothing(m, now);
      IdleRuns(t.m, now);
      RecordedAtOnce(m, t.m, m.AdvanceTime(now).0, Commands(m.AdvanceTime(now).1), now);
    }
  }

  /** Observing itself decides nothing once there is a record. */
  lemma DecidesAsItAdvances(m: DeciderState, now: Time, o: Observation)
    requires m.WellFormed() && ValidObservation(o) && (o.Seen? ==> m.handled.Some?)
    ensures var seen := m.Observe(now, o).0;
            && seen.WellFormed() && m.Decide(now, o) == seen.AdvanceTime(now)
            && seen.latest == LatestAfter(m, o) && seen.cfg == m.cfg && seen.handled == m.handled
            && seen.limits == m.limits
  {
    ObserveKeepsWellFormed(m, now, o);
    var (seen, ds) := m.Observe(now, o);
    assert ds == [] && ds + seen.AdvanceTime(now).1 == seen.AdvanceTime(now).1;
  }

  /** With no job in flight: when the newest state names this host under an activation not on record,
      the one run decided holds the -A commands, one for one, each its argv or a take under that
      activation; when it shows the host's ownership gone, the -D commands as they are; else none.
      With no command to run the change is recorded at once, otherwise with the job that runs them. */
  lemma OwnershipChangeRuns(m: DeciderState, before: Time, now: Time, o: Observation)
    requires Inv(m, before) && before <= now && ValidObservation(o)
    requires m.job.None? && m.handled.Some? && LatestAfter(m, o).Some?
    ensures var (m', ds) := m.Decide(now, o);
            var s, rec, me := LatestAfter(m, o).value, m.handled.value.ownership, m.cfg.id;
            && m'.handled.Some?
            && (if s.owner == me && (rec.owner != me || rec.activation != s.activation) then
                  Activates(m.cfg.onActivation, s.activation, Commands(ds))
                else if s.owner != me && s.owner != "" && rec.owner == me then
                  Deactivates(m.cfg.onDeactivation, Commands(ds))
                else Commands(ds) == [] && m'.handled.value.ownership == rec)
            && ((s.owner == me || (s.owner != "" && rec.owner == me)) && Commands(ds) == [] ==>
                  m'.handled.value.ownership == Ownership(s.owner, s.activation))
            && (Commands(ds) != [] ==>
                  && m'.handled.value.ownership == rec && m'.job.Some?
                  && m'.job.value.record.ownership == Some(Ownership(s.owner, s.activation)))
  {
    ObserveKeepsInv(m, now, o);
    DecidesAsItAdvances(m, now, o);
    IdleRuns(m.Observe(now, o).0, now);
  }

  /** The turn that ends a job. */
  lemma EndTurn(m: DeciderState, now: Time)
    requires Inv(m, now) && EndsNow(m, now)
    ensures var t := m.TakeTurn(now);
            && !t.stop && Between(t.m, now) && t.m.job.None? && t.m.latest == m.latest && t.m.handled.Some?
            && t.m.handled.value.ownership
            == (if m.job.value.record.ownership.Some? then m.job.value.record.ownership.value
                else m.handled.value.ownership)
            && Commands(t.decisions) == []
  {
    TurnIssues(m, now);
    UpdatedJobIs(m, now);
    OneDecision(m.TakeTurn(now));
  }

  lemma EndedRuns(m: DeciderState, now: Time)
    requires Inv(m, now) && EndsNow(m, now)
    ensures var over := m.TakeTurn(now).m;
            && over.handled.Some? && over.latest.Some?
            && RunsTheFlags(over, Commands(m.AdvanceTime(now).1))
  {
    EndTurn(m, now);
    TurnRunsNothing(m, now);
    IdleRuns(m.TakeTurn(now).m, now);
  }

  /** The same once a job ended: what it recorded is then the record. */
  lemma OwnershipChangeAfterJob(m: DeciderState, before: Time, now: Time, o: Observation)
    requires Inv(m, before) && before <= now && ValidObservation(o) && m.job.Some?
    requires EndsNow(m.Observe(now, o).0, now)
    ensures var over := m.Observe(now, o).0.TakeTurn(now).m;
            && over.handled.Some? && over.job.None? && over.latest == LatestAfter(m, o) && over.latest.Some?
            && over.handled.value.ownership
            == (if m.job.value.record.ownership.Some? then m.job.value.record.ownership.value
                else m.handled.value.ownership)
            && RunsTheFlags(over, Commands(m.Decide(now, o).1))
  {
    InvLater(m, before, now);
    ObserveKeepsInv(m, now, o);
    DecidesAsItAdvances(m, now, o);
    var seen := m.Observe(now, o).0;
    assert seen.job.value.record == m.job.value.record;
    EndTurn(seen, now);
    EndedRuns(seen, now);
  }

  // What an idle decider gives away.

  /** a is another live host's, at a seq not on record, not yet arrived, and the limiter lets it go. */
  ghost predicate ToGive(m: DeciderState, now: Time, a: Assignment)
    requires m.handled.Some? && m.latest.Some?
  {
    && a in m.latest.value.assignments && a.assignee != m.cfg.id && !a.arrived
    && a.assignee in m.latest.value.live && m.latest.value.live[a.assignee]
    && !(a.Key() in m.handled.value.seqs && m.handled.value.seqs[a.Key()] == a.seqno)
    && m.limits.LimitedUntil(m.cfg, now, a.Key()).None?
  }

  ghost predicate GivesAll(m: DeciderState, now: Time, given: seq<Assignment>)
    requires m.handled.Some? && m.latest.Some?
  {
    forall a :: a in given <==> ToGive(m, now, a)
  }

  lemma {:induction false} GivenConcat(a: seq<Decision>, b: seq<Decision>)
    ensures Given(a + b) == Given(a) + Given(b)
  {
    if b == [] {
      assert a + b == a;
    } else {
      var init, last := b[..|b| - 1], b[|b| - 1];
      GivenConcat(a, init);
      assert (a + b)[..|a + b| - 1] == a + init && (a + b)[|a + b| - 1] == last;
      assert Given(a) + (Given(init) + last.giveAway) == Given(a) + Given(init) + last.giveAway;
    }
  }

  /** The tasks of the job an idle decider builds are of what there is to give. */
  lemma TasksAreToGive(m: DeciderState, now: Time)
    requires m.WellFormed() && m.latest.Some? && !Changes(m)
    ensures forall a ::
              ToGive(m, now, a) <==> exists t :: t in GiveAwayTasks(m.PendingAssignments(now)) && t.assignment == a
    ensures m.Reconcile(now).None? ==> GivesAll(m, now, [])
  {
    ReconcileFacts(m, now);
    var ps := m.PendingAssignments(now);
    forall a | ToGive(m, now, a)
      ensures AssignmentTask(FRESH, a, false, 0) in GiveAwayTasks(ps) && a.Key() in RecordedSeqs(ps)
    {
      assert PendingAssignment(a, GiveNow) in ps;
    }
    forall t | t in GiveAwayTasks(ps)
      ensures ToGive(m, now, t.assignment)
    {
      assert PendingAssignment(t.assignment, GiveNow) in ps;
    }
  }

  /** Recording the arrived leaves as little to give as there was. */
  lemma NothingMoreToGive(m: DeciderState, m': DeciderState, now: Time)
    requires m.WellFormed() && m.latest.Some? && !Changes(m) && m'.handled.Some?
    requires GiveAwayTasks(m.PendingAssignments(now)) == []
    requires m'.latest == m.latest && m'.cfg == m.cfg && m'.limits == m.limits
    requires m'.handled.value.seqs == m.handled.value.seqs + RecordedSeqs(m.PendingAssignments(now))
    ensures GivesAll(m, now, []) && GivesAll(m', now, [])
  {
    TasksAreToGive(m, now);
    RecordingHandles(m, now);
    assert m.handled.value.Add(Record(None, RecordedSeqs(m.PendingAssignments(now)))).seqs == m'.handled.value.seqs;
    forall a | ToGive(m', now, a)
      ensures ToGive(m, now, a)
    {
      assert Unhandled(m.cfg.id, m'.handled.value, a);
    }
  }

  lemma GivenAreTasks(m: DeciderState, now: Time, given: seq<Assignment>)
    requires m.WellFormed() && m.latest.Some? && !Changes(m)
    requires var tasks := GiveAwayTasks(m.PendingAssignments(now));
             |given| == |tasks| && forall i | 0 <= i < |tasks| :: given[i] == tasks[i].assignment
    ensures GivesAll(m, now, given)
  {
    TasksAreToGive(m, now);
    var tasks := GiveAwayTasks(m.PendingAssignments(now));
    forall a
      ensures a in given <==> exists t :: t in tasks && t.assignment == a
    {
      if a in given {
        var i :| 0 <= i < |given| && given[i] == a;
        assert tasks[i] in tasks && tasks[i].assignment == a;
      }
    }
  }

  lemma GiveTurn(m: DeciderState, now: Time)
    requires m.WellFormed() && m.JustBuilt(now) && !Changes(m)
    ensures var t := m.TakeTurn(now);
            && GivesAll(m, now, Given(t.decisions))
            && (!t.stop ==>
                  && Given(t.decisions) == [] && t.m.job.None? && t.m.latest == m.latest && t.m.handled.Some?
                  && !Changes(t.m) && GivesAll(t.m, now, []))
  {
    BuiltTurn(m, now);
    GivenAreTasks(m, now, Given(m.TakeTurn(now).decisions));
    if !m.TakeTurn(now).stop {
      NothingMoreToGive(m, m.TakeTurn(now).m, now);
    }
  }

  lemma IdleGives(m: DeciderState, now: Time)
    requires Between(m, now) && m.latest.Some? && !Changes(m) && m.job.None?
    ensures GivesAll(m, now, Given(m.AdvanceTime(now).1))
    decreases m.OldJob(now), m.OpenEdge(), m.UnhandledCount(), m.DueClaim(now), m.JobToBuild(), 1
  {
    AdvanceTimeUnfolds(m, now);
    IdleTurn(m, now);
    TurnIssues(m, now);
    var t := m.TakeTurn(now);
    if t.stop {
      TasksAreToGive(m, now);
    } else {
      TurnDecreases(m, now);
      if t.m.job.Some? {
        BuiltGives(t.m, now);
      } else {
        IdleGives(t.m, now);
      }
      GivenConcat(t.decisions, t.m.AdvanceTime(now).1);
      assert [] + Given(t.m.AdvanceTime(now).1) == Given(t.m.AdvanceTime(now).1);
    }
  }

  lemma BuiltGives(m: DeciderState, now: Time)
    requires Between(m, now) && m.JustBuilt(now) && !Changes(m)
    ensures GivesAll(m, now, Given(m.AdvanceTime(now).1))
    decreases m.OldJob(now), m.OpenEdge(), m.UnhandledCount(), m.DueClaim(now), m.JobToBuild(), 0
  {
    AdvanceTimeUnfolds(m, now);
    GiveTurn(m, now);
    TurnIssues(m, now);
    var t := m.TakeTurn(now);
    if !t.stop {
      TurnDecreases(m, now);
      IdleGives(t.m, now);
      GivenConcat(t.decisions, t.m.AdvanceTime(now).1);
      assert [] + Given(t.m.AdvanceTime(now).1) == Given(t.m.AdvanceTime(now).1);
    }
  }

  /** With no job in flight and no ownership change to act on, what is given away is all there is to
      give and nothing else. */
  lemma GivesAllThereIs(m: DeciderState, before: Time, now: Time, o: Observation)
    requires Inv(m, before) && before <= now && ValidObservation(o)
    requires m.job.None? && m.handled.Some? && LatestAfter(m, o).Some? && !Changes(m.(latest := LatestAfter(m, o)))
    ensures GivesAll(m.(latest := LatestAfter(m, o)), now, Given(m.Decide(now, o).1))
  {
    ObserveKeepsInv(m, now, o);
    DecidesAsItAdvances(m, now, o);
    var seen := m.Observe(now, o).0;
    IdleGives(seen, now);
    var known := m.(latest := LatestAfter(m, o));
    assert forall a :: ToGive(seen, now, a) <==> ToGive(known, now, a);
  }

  // The first state.

  lemma {:induction false} SeqsOfAre(assignments: seq<Assignment>)
    requires DistinctKeys(assignments)
    ensures forall a | a in assignments :: a.Key() in SeqsOf(assignments) && SeqsOf(assignments)[a.Key()] == a.seqno
    ensures forall key | key in SeqsOf(assignments) :: exists a :: a in assignments && a.Key() == key
  {
    if assignments != [] {
      var init, last := assignments[..|assignments| - 1], assignments[|assignments| - 1];
      SeqsOfAre(init);
      assert assignments == init + [last];
    }
  }

  lemma SomeIn(given: seq<Assignment>)
    ensures given == [] || exists a :: a in given
  {
    if given != [] {
      assert given[0] in given;
    }
  }

  /** A host without a record takes the first state it sees as dealt with: it records its owner,
      activation and seqs, runs nothing, gives nothing away, and shown that state again does neither. */
  lemma FirstStateIsAdopted(m: DeciderState, before: Time, now: Time, s: ServerState, later: Time)
    requires Inv(m, before) && before <= now <= later && ValidState(s)
    requires m.handled.None?
    ensures var (m', ds) := m.Decide(now, Seen(s));
            && Inv(m', now) && Commands(ds) == [] && Given(ds) == [] && m'.job.None?
            && m'.handled.Some? && m'.handled.value.ownership == Ownership(s.owner, s.activation)
            && (forall a | a in s.assignments ::
                  a.Key() in m'.handled.value.seqs && m'.handled.value.seqs[a.Key()] == a.seqno)
            && (forall key | key in m'.handled.value.seqs :: exists a :: a in s.assignments && a.Key() == key)
            && Commands(m'.Decide(later, Seen(s)).1) == [] && Given(m'.Decide(later, Seen(s)).1) == []
  {
    InvLater(m, before, now);
    ObserveKeepsInv(m, now, Seen(s));
    SeqsOfAre(s.assignments);
    var (seen, ds) := m.Observe(now, Seen(s));
    AdvanceUnstarted(seen, now);
    AdvanceTimeIssues(seen, now);
    UnstartedGivesNothing(seen, now);
    CommandsConcat(ds, seen.AdvanceTime(now).1);
    GivenConcat(ds, seen.AdvanceTime(now).1);
    CommandsOfOne(ds[0]);
    GivenOfOne(ds[0]);
    var m' := m.Decide(now, Seen(s)).0;
    OwnershipChangeRuns(m', now, later, Seen(s));
    GivesAllThereIs(m', now, later, Seen(s));
    SomeIn(Given(m'.Decide(later, Seen(s)).1));
  }

  lemma UnstartedGivesNothing(m: DeciderState, now: Time)
    requires m.WellFormed() && m.latest.None? && m.job.None?
    ensures Commands(m.AdvanceTime(now).1) == [] && Given(m.AdvanceTime(now).1) == []
    ensures m.AdvanceTime(now).0.job.None? && m.AdvanceTime(now).0.latest.None?
    ensures m.AdvanceTime(now).0.cfg == m.cfg
    decreases m.OldJob(now), m.OpenEdge(), m.UnhandledCount(), m.DueClaim(now), m.JobToBuild()
  {
    AdvanceTimeUnfolds(m, now);
    var t := m.TakeTurn(now);
    OneDecision(t);
    if !t.stop {
      TurnDecreases(m, now);
      UnstartedGivesNothing(t.m, now);
      CommandsConcat(t.decisions, t.m.AdvanceTime(now).1);
      GivenConcat(t.decisions, t.m.AdvanceTime(now).1);
    }
  }
}
