/** What holds of the decider between any two observations, and what each issue is allowed by. */
module DeciderInvariant {
  import opened Options
  import opened State
  import opened Policy
  import opened RateLimiting
  import opened Jobs
  import opened Deciding

  ghost predicate HeaderOk(h: Header, maxAttempts: nat, now: Time) {
    && h.attempts <= maxAttempts
    && (h.status.Pending? ==> h == FRESH)
    && (!h.status.Pending? ==> h.attempts >= 1 && h.lastIssued <= now)
    && (h.status.Failed? || h.status.AwaitingArrival? ==> h.dropReason.None?)
    && (h.status.Dropped? ==> h.dropReason.Some?)
  }

  /** A command takes only when its job is an activation, and under that activation. */
  ghost predicate CommandOk(me: HostId, o: Ownership, c: Command) {
    && (c.Takes() ==> o.owner == me)
    && (c.takeScreen == 0 || c.takeScreen == o.activation)
    && (c.takeHID == 0 || c.takeHID == o.activation)
  }

  /** The task stopped because its assignee was not live: its assignment stays pending. */
  ghost predicate LeftPending(t: AssignmentTask) {
    t.header.status.Dropped? && t.header.dropReason == Some(AssigneeNotLive)
  }

  /** The job records the assignment exactly when it does not leave it pending. */
  ghost predicate RecordedUnlessLeft(t: AssignmentTask, seqs: map<AssignmentKey, Seq>) {
    if LeftPending(t) then t.Key() !in seqs else t.Key() in seqs && seqs[t.Key()] == t.assignment.seqno
  }

  ghost predicate TaskOk(me: HostId, h: Handled, t: AssignmentTask, now: Time) {
    && t.assignment.assignee != me
    && t.Key().Valid()
    && !h.Has(t.Key(), t.assignment.seqno)
    && (t.header.status.Issued? ==> t.header.dropReason != Some(AssigneeNotLive))
    && (t.header.status.AwaitingArrival? ==> t.assignment.kind != KIND_SCREEN && t.sentAt <= now)
    && (t.header.status.Pending? ==> !t.triedToMove)
  }

  ghost predicate AssignmentOk(cfg: Config, h: Handled, t: AssignmentTask, seqs: map<AssignmentKey, Seq>, now: Time) {
    HeaderOk(t.header, cfg.MaxAttempts(), now) && TaskOk(cfg.id, h, t, now) && RecordedUnlessLeft(t, seqs)
  }

  ghost predicate PauseOver(cfg: Config, l: Limits, now: Time) {
    l.PauseEnds(cfg).Some? ==> l.PauseEnds(cfg).value <= now
  }

  ghost predicate CooldownOver(cfg: Config, l: Limits, key: AssignmentKey, now: Time) {
    l.CooldownEnds(cfg, key).Some? ==> l.CooldownEnds(cfg, key).value <= now
  }

  ghost predicate OwnershipJobOk(me: HostId, j: JobState)
    requires j.record.ownership.Some?
  {
    && j.assignments == [] && j.record.seqs == map[]
    && forall i | 0 <= i < |j.commands| :: CommandOk(me, j.record.ownership.value, j.commands[i].cmd)
  }

  ghost predicate JobOk(cfg: Config, h: Handled, l: Limits, j: JobState, now: Time) {
    && (forall i | 0 <= i < |j.commands| ::
          HeaderOk(j.commands[i].header, cfg.MaxAttempts(), now) && !j.commands[i].header.status.AwaitingArrival?)
    && (forall i | 0 <= i < |j.assignments| ::
          AssignmentOk(cfg, h, j.assignments[i], j.record.seqs, now))
    && (forall i | 0 <= i < |j.assignments| :: CooldownOver(cfg, l, j.assignments[i].Key(), now))
    && DistinctTasks(j.assignments)
    && (j.assignments != [] ==> PauseOver(cfg, l, now))
    && (j.record.ownership.None? ==> j.commands == [])
    && (j.record.ownership.Some? ==> OwnershipJobOk(cfg.id, j))
  }

  /** Every task of the job was issued at least once. */
  ghost predicate Begun(j: JobState) {
    && (forall i | 0 <= i < |j.commands| :: !j.commands[i].header.status.Pending?)
    && (forall i | 0 <= i < |j.assignments| :: !j.assignments[i].header.status.Pending?)
  }

  /** Between two observations. */
  ghost predicate Inv(m: DeciderState, now: Time) {
    && m.WellFormed()
    && (m.job.Some? ==>
          && m.latest.Some? && JobOk(m.cfg, m.handled.value, m.limits, m.job.value, now)
          && Begun(m.job.value))
  }

  /** Between two turns of advanceTime. */
  ghost predicate Between(m: DeciderState, now: Time) {
    && m.WellFormed()
    && (m.job.Some? ==>
          && m.latest.Some? && JobOk(m.cfg, m.handled.value, m.limits, m.job.value, now)
          && (Begun(m.job.value) || m.JustBuilt(now)))
  }

  lemma StartedIsOk(cfg: Config, handled: Option<Handled>, now: Time)
    requires cfg.Valid() && (handled.Some? ==> ValidKeys(handled.value.seqs))
    ensures Inv(Started(cfg, handled), now)
  {
  }

  lemma InvLater(m: DeciderState, now: Time, later: Time)
    requires Inv(m, now) && now <= later
    ensures Inv(m, later)
  {
  }

  lemma BuiltTaskIsOk(m: DeciderState, now: Time, t: AssignmentTask)
    requires m.WellFormed() && m.latest.Some? && t in GiveAwayTasks(m.PendingAssignments(now))
    ensures t == AssignmentTask(FRESH, t.assignment, false, 0)
    ensures AssignmentOk(m.cfg, m.handled.value, t, RecordedSeqs(m.PendingAssignments(now)), now)
    ensures t.assignment in m.latest.value.assignments && !t.assignment.arrived
    ensures m.latest.value.IsLive(t.assignment.assignee)
    ensures m.limits.LimitedUntil(m.cfg, now, t.Key()).None?
    ensures PauseOver(m.cfg, m.limits, now) && CooldownOver(m.cfg, m.limits, t.Key(), now)
  {
    ReconcileFacts(m, now);
    assert PendingAssignment(t.assignment, GiveNow) in m.PendingAssignments(now);
  }

  /** Reconciling builds a sound job. */
  lemma BuiltIsOk(m: DeciderState, now: Time)
    requires m.WellFormed() && m.latest.Some? && m.Reconcile(now).Some?
    ensures var j := m.Reconcile(now).value;
            && JobOk(m.cfg, m.handled.value, m.limits, j, now)
            && (forall i | 0 <= i < |j.commands| :: j.commands[i].header == FRESH)
            && (forall i | 0 <= i < |j.assignments| :: j.assignments[i].header == FRESH)
  {
    var j := m.Reconcile(now).value;
    if m.ActivationEdge(m.latest.value) || m.DeactivationEdge(m.latest.value) {
    } else {
      forall t | t in j.assignments
        ensures AssignmentOk(m.cfg, m.handled.value, t, j.record.seqs, now)
        ensures PauseOver(m.cfg, m.limits, now) && CooldownOver(m.cfg, m.limits, t.Key(), now)
        ensures t.header == FRESH
      {
        BuiltTaskIsOk(m, now, t);
      }
      TaskFacts(m.PendingAssignments(now));
      PendingFacts(m.cfg, m.handled.value, m.limits, now, m.latest.value, m.latest.value.assignments);
      if j.assignments != [] {
        assert j.assignments[0] in j.assignments;
      }
    }
  }

  function UpdatedTask(t: AssignmentTask, s: ServerState, current: map<AssignmentKey, Assignment>,
                       now: Time, window: Time): AssignmentTask
  {
    t.DropExpired(s, current).MarkArrived(current).Expire(now, window)
  }

  lemma UpdateKeepsTask(cfg: Config, h: Handled, t: AssignmentTask, s: ServerState,
                        current: map<AssignmentKey, Assignment>, now: Time)
    requires HeaderOk(t.header, cfg.MaxAttempts(), now) && TaskOk(cfg.id, h, t, now) && !t.header.status.Pending?
    ensures var t' := UpdatedTask(t, s, current, now, cfg.arrivalWindow);
            && HeaderOk(t'.header, cfg.MaxAttempts(), now) && TaskOk(cfg.id, h, t', now)
            && !t'.header.status.Pending?
            && (LeftPending(t') <==> LeftPending(t) || t.StopsNotLive(s, current))
  {
  }

  lemma NotLiveKeysAre(tasks: seq<AssignmentTask>, s: ServerState, current: map<AssignmentKey, Assignment>, i: nat)
    requires DistinctTasks(tasks) && i < |tasks|
    ensures tasks[i].Key() in NotLiveKeys(tasks, s, current) <==> tasks[i].StopsNotLive(s, current)
  {
    if tasks[i].Key() in NotLiveKeys(tasks, s, current) {
      var t :| t in tasks && t.StopsNotLive(s, current) && t.Key() == tasks[i].Key();
    }
  }

  /** The updated job, task by task. */
  lemma UpdatedJobIs(m: DeciderState, now: Time)
    requires m.WellFormed() && m.job.Some?
    ensures var j, j' := m.job.value, m.UpdatedJob(now);
            && |j'.commands| == |j.commands| && |j'.assignments| == |j.assignments|
            && j'.record.ownership == j.record.ownership
            && (m.latest.None? ==>
                  && j'.commands == j.commands && j'.record == j.record
                  && forall i | 0 <= i < |j.assignments| ::
                       j'.assignments[i] == j.assignments[i].Expire(now, m.cfg.arrivalWindow))
            && (m.latest.Some? ==>
                  var s, current := m.latest.value, ByKey(m.latest.value.assignments);
                  var expired := j.record.CommandsExpired(s, m.cfg.id);
                  && j'.record.seqs == j.record.seqs - NotLiveKeys(j.assignments, s, current)
                  && (forall i | 0 <= i < |j.assignments| ::
                        j'.assignments[i] == UpdatedTask(j.assignments[i], s, current, now, m.cfg.arrivalWindow))
                  && (forall i | 0 <= i < |j.commands| ::
                        j'.commands[i] == if expired.None? then j.commands[i]
                                          else j.commands[i].(header := j.commands[i].header.Drop(expired.value))))
  {
  }

  lemma UpdateKeepsAssignment(m: DeciderState, now: Time, i: nat)
    requires Inv(m, now) && m.job.Some? && i < |m.job.value.assignments|
    ensures |m.UpdatedJob(now).assignments| == |m.job.value.assignments|
    ensures var j' := m.UpdatedJob(now);
            && AssignmentOk(m.cfg, m.handled.value, j'.assignments[i], j'.record.seqs, now)
            && !j'.assignments[i].header.status.Pending?
            && j'.assignments[i].assignment == m.job.value.assignments[i].assignment
  {
    UpdatedJobIs(m, now);
    var j := m.job.value;
    assert AssignmentOk(m.cfg, m.handled.value, j.assignments[i], j.record.seqs, now);
    if m.latest.Some? {
      var s, current := m.latest.value, ByKey(m.latest.value.assignments);
      UpdateKeepsTask(m.cfg, m.handled.value, j.assignments[i], s, current, now);
      NotLiveKeysAre(j.assignments, s, current, i);
    }
  }

  /** Bringing a begun job up to date keeps it sound. */
  lemma UpdateKeepsJob(m: DeciderState, now: Time)
    requires Inv(m, now) && m.job.Some?
    ensures JobOk(m.cfg, m.handled.value, m.limits, m.UpdatedJob(now), now) && Begun(m.UpdatedJob(now))
  {
    var j, j' := m.job.value, m.UpdatedJob(now);
    UpdatedJobIs(m, now);
    forall i | 0 <= i < |j'.assignments|
      ensures AssignmentOk(m.cfg, m.handled.value, j'.assignments[i], j'.record.seqs, now)
      ensures !j'.assignments[i].header.status.Pending?
      ensures j'.assignments[i].assignment == j.assignments[i].assignment
    {
      UpdateKeepsAssignment(m, now, i);
    }
    assert j.record.ownership.Some? ==> j'.record.seqs == map[];
  }

  // What is outstanding: the commands and the assignments the worker is on.

  datatype Issue = Issue(run: seq<Command>, giveAway: seq<Assignment>)

  const NO_ISSUE := Issue([], [])

  function Outstanding(m: DeciderState): Issue {
    if m.job.None? then NO_ISSUE
    else Issue(IssuedCommands(m.job.value.commands), IssuedAssignments(m.job.value.assignments))
  }

  function IssuesIn(ds: seq<Decision>): seq<Issue> {
    if ds == [] then []
    else
      var d := ds[|ds| - 1];
      IssuesIn(ds[..|ds| - 1]) + if d.Issues() then [Issue(d.run, d.giveAway)] else []
  }

  lemma {:induction false} IssuesInConcat(a: seq<Decision>, b: seq<Decision>)
    ensures IssuesIn(a + b) == IssuesIn(a) + IssuesIn(b)
  {
    if b == [] {
      assert a + b == a;
    } else {
      var init, d := b[..|b| - 1], b[|b| - 1];
      IssuesInConcat(a, init);
      assert (a + b)[..|a + b| - 1] == a + init && (a + b)[|a + b| - 1] == d;
      var last := if d.Issues() then [Issue(d.run, d.giveAway)] else [];
      assert IssuesIn(a + b) == IssuesIn(a) + IssuesIn(init) + last;
    }
  }

  lemma {:induction false} DueCommandsAreIssued(before: seq<CommandTask>, after: seq<CommandTask>,
                                                now: Time, maxAttempts: nat, spacing: Time)
    requires |before| == |after|
    requires forall i | 0 <= i < |before| ::
               && !before[i].header.status.Issued?
               && after[i] == before[i].(header := before[i].header.IssueIfDue(now, maxAttempts, spacing))
    ensures DueCommands(before, now, maxAttempts, spacing) == IssuedCommands(after)
  {
    if before != [] {
      var n := |before| - 1;
      DueCommandsAreIssued(before[..n], after[..n], now, maxAttempts, spacing);
    }
  }

  lemma {:induction false} DueAssignmentsAreIssued(before: seq<AssignmentTask>, after: seq<AssignmentTask>,
                                                   now: Time, maxAttempts: nat, spacing: Time)
    requires |before| == |after|
    requires forall i | 0 <= i < |before| ::
               && !before[i].header.status.Issued?
               && after[i] == before[i].(header := before[i].header.IssueIfDue(now, maxAttempts, spacing))
    ensures DueAssignments(before, now, maxAttempts, spacing) == IssuedAssignments(after)
  {
    if before != [] {
      var n := |before| - 1;
      DueAssignmentsAreIssued(before[..n], after[..n], now, maxAttempts, spacing);
    }
  }

  lemma {:induction false} SameCommandsIssued(before: seq<CommandTask>, after: seq<CommandTask>)
    requires |before| == |after|
    requires forall i | 0 <= i < |before| ::
               before[i].cmd == after[i].cmd && before[i].header.status.Issued? == after[i].header.status.Issued?
    ensures IssuedCommands(before) == IssuedCommands(after)
  {
    if before != [] {
      var n := |before| - 1;
      SameCommandsIssued(before[..n], after[..n]);
    }
  }

  lemma {:induction false} SameAssignmentsIssued(before: seq<AssignmentTask>, after: seq<AssignmentTask>)
    requires |before| == |after|
    requires forall i | 0 <= i < |before| ::
               && before[i].assignment == after[i].assignment
               && before[i].header.status.Issued? == after[i].header.status.Issued?
    ensures IssuedAssignments(before) == IssuedAssignments(after)
  {
    if before != [] {
      var n := |before| - 1;
      SameAssignmentsIssued(before[..n], after[..n]);
    }
  }

  lemma {:induction false} IssuedCommandsFacts(tasks: seq<CommandTask>)
    ensures IssuedCommands(tasks) == [] <==> forall i | 0 <= i < |tasks| :: !tasks[i].header.status.Issued?
    ensures forall c | c in IssuedCommands(tasks) ::
              exists i :: 0 <= i < |tasks| && tasks[i].header.status.Issued? && tasks[i].cmd == c
  {
    if tasks != [] {
      var n := |tasks| - 1;
      IssuedCommandsFacts(tasks[..n]);
      forall c | c in IssuedCommands(tasks)
        ensures exists i :: 0 <= i < |tasks| && tasks[i].header.status.Issued? && tasks[i].cmd == c
      {
        if c in IssuedCommands(tasks[..n]) {
          var i :| 0 <= i < n && tasks[..n][i].header.status.Issued? && tasks[..n][i].cmd == c;
          assert tasks[i].cmd == c;
        } else {
          assert tasks[n].cmd == c;
        }
      }
    }
  }

  lemma {:induction false} IssuedAssignmentsFacts(tasks: seq<AssignmentTask>)
    ensures IssuedAssignments(tasks) == [] <==> forall i | 0 <= i < |tasks| :: !tasks[i].header.status.Issued?
    ensures forall a | a in IssuedAssignments(tasks) ::
              exists i :: 0 <= i < |tasks| && tasks[i].header.status.Issued? && tasks[i].assignment == a
  {
    if tasks != [] {
      var n := |tasks| - 1;
      IssuedAssignmentsFacts(tasks[..n]);
      forall a | a in IssuedAssignments(tasks)
        ensures exists i :: 0 <= i < |tasks| && tasks[i].header.status.Issued? && tasks[i].assignment == a
      {
        if a in IssuedAssignments(tasks[..n]) {
          var i :| 0 <= i < n && tasks[..n][i].header.status.Issued? && tasks[..n][i].assignment == a;
          assert tasks[i].assignment == a;
        } else {
          assert tasks[n].assignment == a;
        }
      }
    }
  }

  lemma BusyIsOutstanding(m: DeciderState)
    ensures Outstanding(m) != NO_ISSUE <==> m.job.Some? && m.job.value.Busy()
  {
    if m.job.Some? {
      IssuedCommandsFacts(m.job.value.commands);
      IssuedAssignmentsFacts(m.job.value.assignments);
    }
  }

  /** Bringing the job up to date neither issues nor recalls anything. */
  lemma UpdateKeepsOutstanding(m: DeciderState, now: Time)
    requires m.WellFormed() && m.job.Some?
    ensures Outstanding(m.(job := Some(m.UpdatedJob(now)))) == Outstanding(m)
  {
    UpdatedJobIs(m, now);
    SameCommandsIssued(m.UpdatedJob(now).commands, m.job.value.commands);
    SameAssignmentsIssued(m.UpdatedJob(now).assignments, m.job.value.assignments);
  }

  /** Issuing what is due of an idle job: the decision lists exactly what is then outstanding. */
  lemma IssueIsOutstanding(m: DeciderState, j: JobState, now: Time)
    requires !j.Busy()
    ensures var j' := j.IssueTasks(now, m.cfg.MaxAttempts(), m.cfg.retrySpacing);
            var d := j.DueDecision(now, m.cfg.MaxAttempts(), m.cfg.retrySpacing);
            && (d.None? <==> Outstanding(m.(job := Some(j'))) == NO_ISSUE)
            && (d.Some? ==>
                  d.value.Issues() && Issue(d.value.run, d.value.giveAway) == Outstanding(m.(job := Some(j'))))
  {
    var j' := j.IssueTasks(now, m.cfg.MaxAttempts(), m.cfg.retrySpacing);
    DueCommandsAreIssued(j.commands, j'.commands, now, m.cfg.MaxAttempts(), m.cfg.retrySpacing);
    DueAssignmentsAreIssued(j.assignments, j'.assignments, now, m.cfg.MaxAttempts(), m.cfg.retrySpacing);
  }

  lemma IssueKeepsJob(m: DeciderState, j: JobState, now: Time)
    requires m.WellFormed() && m.handled.Some? && JobOk(m.cfg, m.handled.value, m.limits, j, now)
    ensures var j' := j.IssueTasks(now, m.cfg.MaxAttempts(), m.cfg.retrySpacing);
            JobOk(m.cfg, m.handled.value, m.limits, j', now) && Begun(j')
  {
    var j' := j.IssueTasks(now, m.cfg.MaxAttempts(), m.cfg.retrySpacing);
    forall i | 0 <= i < |j'.assignments|
      ensures AssignmentOk(m.cfg, m.handled.value, j'.assignments[i], j'.record.seqs, now)
      ensures j'.assignments[i].assignment == j.assignments[i].assignment
    {
      assert AssignmentOk(m.cfg, m.handled.value, j.assignments[i], j.record.seqs, now);
    }
  }

  // What each issue is allowed by.

  /** The newest state calls for giving a away: it lists the name at that very seq, not arrived
      if a device, its assignee another host shown live; it is not recorded as handled, and
      the breaker is not paused. */
  ghost predicate GiveAwayAllowed(m: DeciderState, now: Time, a: Assignment) {
    && m.latest.Some? && m.handled.Some?
    && (exists c :: c in m.latest.value.assignments && c.Key() == a.Key() && c.seqno == a.seqno
                    && !(c.kind == KIND_HID && c.arrived))
    && m.latest.value.IsLive(a.assignee) && a.assignee != m.cfg.id
    && !m.handled.value.Has(a.Key(), a.seqno)
    && PauseOver(m.cfg, m.limits, now)
  }

  /** The first issue is, besides, of the very assignment listed, and past its cooldown. */
  ghost predicate FirstIssueAllowed(m: DeciderState, now: Time, a: Assignment) {
    && m.latest.Some?
    && a in m.latest.value.assignments && !a.arrived
    && m.limits.LimitedUntil(m.cfg, now, a.Key()).None?
  }

  /** A take carries the newest state's activation, this host its owner. */
  ghost predicate RunAllowed(m: DeciderState, c: Command) {
    && m.latest.Some?
    && (c.Takes() ==> m.latest.value.owner == m.cfg.id)
    && (c.takeScreen == 0 || c.takeScreen == m.latest.value.activation)
    && (c.takeHID == 0 || c.takeHID == m.latest.value.activation)
  }

  /** Everything m has just issued at now is allowed. */
  ghost predicate IssueAllowed(m: DeciderState, now: Time) {
    m.job.Some? ==>
      && (forall i | 0 <= i < |m.job.value.commands| && m.job.value.commands[i].header.status.Issued? ::
            RunAllowed(m, m.job.value.commands[i].cmd))
      && (forall i | 0 <= i < |m.job.value.assignments| && m.job.value.assignments[i].header.status.Issued? ::
            && GiveAwayAllowed(m, now, m.job.value.assignments[i].assignment)
            && (m.job.value.assignments[i].header.attempts == 1 ==>
                  FirstIssueAllowed(m, now, m.job.value.assignments[i].assignment)))
  }

  lemma DueAssignmentIsAllowed(m: DeciderState, now: Time, i: nat)
    requires Between(m, now) && m.job.Some?
    requires JobOk(m.cfg, m.handled.value, m.limits, m.UpdatedJob(now), now) && i < |m.UpdatedJob(now).assignments|
    requires m.UpdatedJob(now).assignments[i].header.Due(now, m.cfg.MaxAttempts(), m.cfg.retrySpacing)
    ensures var t := m.UpdatedJob(now).assignments[i];
            && GiveAwayAllowed(m, now, t.assignment)
            && (t.header.attempts == 0 ==> FirstIssueAllowed(m, now, t.assignment))
  {
    var s, t := m.latest.value, m.UpdatedJob(now).assignments[i];
    UpdatedJobIs(m, now);
    ByKeyMembers(s.assignments);
    assert AssignmentOk(m.cfg, m.handled.value, t, m.UpdatedJob(now).record.seqs, now);
    if m.JustBuilt(now) {
      FreshJobIsUpToDate(m, now);
      BuiltTaskIsOk(m, now, t);
    } else {
      assert !m.job.value.assignments[i].header.status.Pending?;
      assert ByKey(s.assignments)[t.Key()] in s.assignments;
    }
  }

  lemma DueCommandIsAllowed(m: DeciderState, now: Time, i: nat)
    requires Between(m, now) && m.job.Some?
    requires JobOk(m.cfg, m.handled.value, m.limits, m.UpdatedJob(now), now) && i < |m.UpdatedJob(now).commands|
    requires m.UpdatedJob(now).commands[i].header.Due(now, m.cfg.MaxAttempts(), m.cfg.retrySpacing)
    ensures RunAllowed(m, m.UpdatedJob(now).commands[i].cmd)
  {
    var j := m.UpdatedJob(now);
    UpdatedJobIs(m, now);
    assert CommandOk(m.cfg.id, j.record.ownership.value, j.commands[i].cmd);
    if m.JustBuilt(now) {
      FreshJobIsUpToDate(m, now);
    }
  }

  /** What is due of a job brought up to date is allowed. */
  lemma DueIsAllowed(m: DeciderState, m': DeciderState, now: Time)
    requires Between(m, now) && m.job.Some?
    requires JobOk(m.cfg, m.handled.value, m.limits, m.UpdatedJob(now), now) && !m.UpdatedJob(now).Busy()
    requires m' == m.(job := Some(m.UpdatedJob(now).IssueTasks(now, m.cfg.MaxAttempts(), m.cfg.retrySpacing)))
    ensures IssueAllowed(m', now)
  {
    var j, j' := m.UpdatedJob(now), m'.job.value;
    forall i | 0 <= i < |j'.commands| && j'.commands[i].header.status.Issued?
      ensures RunAllowed(m', j'.commands[i].cmd)
    {
      DueCommandIsAllowed(m, now, i);
    }
    forall i | 0 <= i < |j'.assignments| && j'.assignments[i].header.status.Issued?
      ensures GiveAwayAllowed(m', now, j'.assignments[i].assignment)
      ensures j'.assignments[i].header.attempts == 1 ==> FirstIssueAllowed(m', now, j'.assignments[i].assignment)
    {
      DueAssignmentIsAllowed(m, now, i);
      assert GiveAwayAllowed(m, now, j.assignments[i].assignment);
    }
  }

  /** What one turn of the loop keeps and issues. */
  ghost predicate TurnOk(m: DeciderState, t: Turn, now: Time) {
    && Between(t.m, now)
    && (t.stop ==> Inv(t.m, now))
    && (!t.stop ==> Outstanding(t.m) == NO_ISSUE)
    && (Outstanding(m) != NO_ISSUE ==> t.stop && IssuesIn(t.decisions) == [] && Outstanding(t.m) == Outstanding(m))
    && (Outstanding(m) == NO_ISSUE ==>
          && IssuesIn(t.decisions) == (if Outstanding(t.m) == NO_ISSUE then [] else [Outstanding(t.m)])
          && IssueAllowed(t.m, now))
  }

  lemma UpdatedJobIsOk(m: DeciderState, now: Time)
    requires Between(m, now) && m.job.Some?
    ensures var j := m.UpdatedJob(now);
            && JobOk(m.cfg, m.handled.value, m.limits, j, now)
            && (Begun(j) || m.JustBuilt(now))
            && Outstanding(m.(job := Some(j))) == Outstanding(m)
            && (Outstanding(m) != NO_ISSUE <==> j.Busy())
            && (j.Busy() ==> Begun(j))
  {
    var j := m.UpdatedJob(now);
    UpdateKeepsOutstanding(m, now);
    BusyIsOutstanding(m.(job := Some(j)));
    if m.JustBuilt(now) {
      FreshJobIsUpToDate(m, now);
      BuiltIsOk(m, now);
    } else {
      UpdateKeepsJob(m, now);
    }
  }

  lemma NoIssueAllowed(m: DeciderState, now: Time)
    requires Outstanding(m) == NO_ISSUE
    ensures IssueAllowed(m, now)
  {
    BusyIsOutstanding(m);
  }

  lemma IssueTurnOk(m: DeciderState, now: Time, t: Turn)
    requires Between(m, now) && m.job.Some? && t.m.WellFormed()
    requires JobOk(m.cfg, m.handled.value, m.limits, m.UpdatedJob(now), now)
    requires !m.UpdatedJob(now).Busy() && Outstanding(m) == NO_ISSUE
    requires var j := m.UpdatedJob(now);
             var d := j.DueDecision(now, m.cfg.MaxAttempts(), m.cfg.retrySpacing);
             t == Turn(m.(job := Some(j.IssueTasks(now, m.cfg.MaxAttempts(), m.cfg.retrySpacing))),
                       if d.Some? then [d.value] else [], true)
    ensures TurnOk(m, t, now)
  {
    var j := m.UpdatedJob(now);
    IssueKeepsJob(m, j, now);
    IssueIsOutstanding(m, j, now);
    DueIsAllowed(m, t.m, now);
    if t.decisions != [] {
      assert t.decisions[..0] == [];
      assert IssuesIn(t.decisions) == [Issue(t.decisions[0].run, t.decisions[0].giveAway)];
    }
  }

  lemma JobTurnOk(m: DeciderState, now: Time)
    requires Between(m, now) && m.job.Some?
    ensures TurnOk(m, m.TakeTurn(now), now)
  {
    var j, t := m.UpdatedJob(now), m.TakeTurn(now);
    UpdatedJobIsOk(m, now);
    TurnKeepsWellFormed(m, now);
    if j.Busy() {
      assert t.m == m.(job := Some(j));
    } else if !j.Settled(m.cfg.MaxAttempts()) {
      IssueTurnOk(m, now, t);
    } else {
      assert IssuesIn(t.decisions) == [];
      NoIssueAllowed(t.m, now);
    }
  }

  lemma BuildTurnOk(m: DeciderState, now: Time)
    requires Between(m, now) && m.job.None?
    ensures TurnOk(m, m.TakeTurn(now), now)
  {
    TurnKeepsWellFormed(m, now);
    var t := m.TakeTurn(now);
    if t.m.job.Some? {
      BuiltIsOk(m, now);
      BusyIsOutstanding(t.m);
    }
    NoIssueAllowed(t.m, now);
  }

  lemma TurnIssues(m: DeciderState, now: Time)
    requires Between(m, now)
    ensures TurnOk(m, m.TakeTurn(now), now)
  {
    if m.job.Some? {
      JobTurnOk(m, now);
    } else {
      BuildTurnOk(m, now);
    }
  }

  lemma AdvanceTimeIssues(m: DeciderState, now: Time)
    requires Between(m, now)
    ensures var (m', ds) := m.AdvanceTime(now);
            && Inv(m', now)
            && (Outstanding(m) != NO_ISSUE ==> IssuesIn(ds) == [] && Outstanding(m') == Outstanding(m))
            && (Outstanding(m) == NO_ISSUE ==>
                  && IssuesIn(ds) == (if Outstanding(m') == NO_ISSUE then [] else [Outstanding(m')])
                  && IssueAllowed(m', now))
    decreases m.OldJob(now), m.OpenEdge(), m.UnhandledCount(), m.DueClaim(now), m.JobToBuild()
  {
    AdvanceTimeUnfolds(m, now);
    TurnIssues(m, now);
    var t := m.TakeTurn(now);
    if !t.stop {
      TurnDecreases(m, now);
      AdvanceTimeIssues(t.m, now);
      IssuesInConcat(t.decisions, t.m.AdvanceTime(now).1);
    }
  }

  lemma ReportKeepsJob(m: DeciderState, now: Time, results: map<AssignmentKey, Result>)
    requires Inv(m, now) && m.job.Some?
    ensures JobOk(m.cfg, m.handled.value, m.limits, m.job.value.ReportGiveAway(now, results), now)
    ensures Begun(m.job.value.ReportGiveAway(now, results))
  {
    var j, j' := m.job.value, m.job.value.ReportGiveAway(now, results);
    forall i | 0 <= i < |j'.assignments|
      ensures AssignmentOk(m.cfg, m.handled.value, j'.assignments[i], j'.record.seqs, now)
      ensures j'.assignments[i].assignment == j.assignments[i].assignment
      ensures !j'.assignments[i].header.status.Pending?
    {
      assert AssignmentOk(m.cfg, m.handled.value, j.assignments[i], j.record.seqs, now);
    }
  }

  lemma ObserveKeepsInv(m: DeciderState, now: Time, o: Observation)
    requires Inv(m, now) && ValidObservation(o)
    ensures Inv(m.Observe(now, o).0, now)
    ensures IssuesIn(m.Observe(now, o).1) == []
  {
    ObserveKeepsWellFormed(m, now, o);
    if o.GaveAway? && m.job.Some? {
      ReportKeepsJob(m, now, o.results);
    }
  }

  /** One issue outstanding: while one awaits its result nothing is issued and it stays as
      issued; otherwise what is outstanding afterwards is exactly the one issue decided, and
      every command and assignment of it is allowed by the newest state, retries included. */
  lemma OneIssueAtATime(m: DeciderState, before: Time, now: Time, o: Observation)
    requires Inv(m, before) && before <= now && ValidObservation(o)
    ensures var seen := m.Observe(now, o).0;
            var (m', ds) := m.Decide(now, o);
            && Inv(m', now)
            && (Outstanding(seen) != NO_ISSUE ==> IssuesIn(ds) == [] && Outstanding(m') == Outstanding(seen))
            && (Outstanding(seen) == NO_ISSUE ==>
                  && IssuesIn(ds) == (if Outstanding(m') == NO_ISSUE then [] else [Outstanding(m')])
                  && IssueAllowed(m', now))
  {
    ObserveKeepsInv(m, now, o);
    var (seen, ds) := m.Observe(now, o);
    AdvanceTimeIssues(seen, now);
    IssuesInConcat(ds, seen.AdvanceTime(now).1);
  }
}
