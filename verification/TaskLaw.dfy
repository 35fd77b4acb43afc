/** What one observation makes of a job in flight, task by task, in the terms of the answers, the
    newest state and the clock. */
module TaskLaw {
  import opened Options
  import opened State
  import opened Policy
  import opened Jobs
  import opened Deciding
  import opened DeciderInvariant
  import opened Provenance
  import opened TaskLife
  import Waking

  /** What an observation says of one task. */
  datatype Said = Silent | Succeeded | NothingHere | Bad

  /** How many of the first i commands are outstanding. */
  ghost function IssuedBefore(tasks: seq<CommandTask>, i: nat): nat
    requires i <= |tasks|
  {
    if i == 0 then 0 else IssuedBefore(tasks, i - 1) + if tasks[i - 1].header.status.Issued? then 1 else 0
  }

  /** The k-th outstanding command is told of by the k-th outcome; for a command only success is good. */
  ghost function SaidOfCommand(j: JobState, o: Observation, i: nat): Said
    requires i < |j.commands|
  {
    var k := IssuedBefore(j.commands, i);
    if !o.Ran? || !j.commands[i].header.status.Issued? then Silent
    else if k < |o.outcomes| && o.outcomes[k].Success? then Succeeded
    else Bad
  }

  ghost function SaidOfGiveAway(t: AssignmentTask, o: Observation): Said {
    var key := AssignmentKey(t.assignment.kind, t.assignment.name);
    if !o.GaveAway? || !t.header.status.Issued? then Silent
    else if key !in o.results then Bad
    else match o.results[key]
      case Success => Succeeded
      case NotHere => NothingHere
      case Failure => Bad
  }

  /** Commands run for own still matter in s. */
  predicate Wanted(me: HostId, own: Ownership, s: ServerState) {
    if own.owner == me then s.owner == me && s.activation == own.activation else s.owner != me
  }

  /** s lists the very take a is of. */
  ghost predicate Listed(s: ServerState, a: Assignment) {
    exists c :: c in s.assignments && c.kind == a.kind && c.name == a.name && c.seqno == a.seqno
  }

  /** s lists it as a device that arrived. */
  ghost predicate ListedArrived(s: ServerState, a: Assignment) {
    exists c :: c in s.assignments && c.kind == a.kind && c.name == a.name && c.seqno == a.seqno
                && c.kind == "hid" && c.arrived
  }

  /** s shows id live. */
  predicate ShownLive(s: ServerState, id: HostId) {
    id in s.live && s.live[id]
  }

  // Where each task stands before anything is tried again.

  ghost function CommandStands(h: Header, said: Said, wanted: bool): Status {
    match h.status
    case Issued =>
      if said.Silent? then Issued
      else if said.Succeeded? then Done
      else if h.dropReason.Some? || !wanted then Dropped
      else Failed
    case Failed => if wanted then Failed else Dropped
    case other => other
  }

  ghost function Answered(t: AssignmentTask, said: Said): Status {
    if said.Silent? then t.header.status
    else if said.NothingHere? || (said.Succeeded? && t.assignment.kind == "screen") then Done
    else if t.header.dropReason.Some? then Dropped
    else if said.Bad? then Failed
    else AwaitingArrival
  }

  /** Since when the arrival is awaited. */
  ghost function Sent(t: AssignmentTask, said: Said, now: Time): Time {
    if said.Succeeded? then now else t.sentAt
  }

  /** A try that failed, or was sent off, and is not settled by the answer itself. */
  ghost predicate Open(t: AssignmentTask, said: Said) {
    Answered(t, said).Failed? || Answered(t, said).AwaitingArrival?
  }

  ghost function GiveAwayStands(t: AssignmentTask, said: Said, s: ServerState, now: Time, window: Time): Status {
    if !Open(t, said) then Answered(t, said)
    else if !Listed(s, t.assignment) || !ShownLive(s, t.assignment.assignee) then Dropped
    else if ListedArrived(s, t.assignment) then Done
    else if Answered(t, said).AwaitingArrival? && now < Sent(t, said, now) + window then AwaitingArrival
    else Failed
  }

  /** Nobody is there to receive it: the job stops trying, and leaves it unrecorded. */
  ghost predicate Abandons(t: AssignmentTask, said: Said, s: ServerState) {
    Open(t, said) && Listed(s, t.assignment) && !ShownLive(s, t.assignment.assignee)
  }

  // One task.

  lemma CommandGoes(h: Header, result: Result, silent: bool, rec: Record, s: ServerState, me: HostId)
    requires rec.ownership.Some? && !h.status.Pending? && !h.status.AwaitingArrival?
    requires silent || h.status.Issued?
    requires h.status.Failed? ==> h.dropReason.None?
    ensures var reported := if silent then h else h.Report(result);
            var expired := rec.CommandsExpired(s, me);
            var h' := if expired.None? then reported else reported.Drop(expired.value);
            var said := if silent then Silent else if result.Success? then Succeeded else Bad;
            && (h.status.Issued? || said.Silent? ==>
                  h'.status == CommandStands(h, said, Wanted(me, rec.ownership.value, s)))
            && h'.attempts == h.attempts && h'.lastIssued == h.lastIssued
            && (h'.status.Issued? ==>
                  (h'.dropReason.Some? <==> h.dropReason.Some? || !Wanted(me, rec.ownership.value, s)))
  {
  }

  lemma StateSays(s: ServerState, t: AssignmentTask)
    requires ValidState(s)
    ensures t.ReplacedIn(ByKey(s.assignments)) <==> !Listed(s, t.assignment)
    ensures t.ArrivedIn(ByKey(s.assignments)) <==> ListedArrived(s, t.assignment)
  {
    ByKeyMembers(s.assignments);
    if Listed(s, t.assignment) {
      var c :| c in s.assignments && c.kind == t.assignment.kind && c.name == t.assignment.name
               && c.seqno == t.assignment.seqno;
      assert ByKey(s.assignments)[c.Key()] == c && c.Key() == t.Key();
    }
    if ListedArrived(s, t.assignment) {
      var c :| c in s.assignments && c.kind == t.assignment.kind && c.name == t.assignment.name
               && c.seqno == t.assignment.seqno && c.kind == "hid" && c.arrived;
      assert ByKey(s.assignments)[c.Key()] == c && c.Key() == t.Key();
    }
  }

  /** The task after the report alone. */
  function ReportedTask(t: AssignmentTask, now: Time, o: Observation): AssignmentTask {
    if o.GaveAway? && t.header.status.Issued? then t.Reported(now, o.results) else t
  }

  lemma ReportGoes(t: AssignmentTask, now: Time, o: Observation)
    requires !t.header.status.Pending?
    requires t.header.status.Failed? || t.header.status.AwaitingArrival? ==> t.header.dropReason.None?
    ensures var t', said := ReportedTask(t, now, o), SaidOfGiveAway(t, o);
            && t'.assignment == t.assignment && t'.header.status == Answered(t, said)
            && t'.header == t.header.(status := Answered(t, said))
            && (t'.header.status.AwaitingArrival? ==> t'.sentAt == Sent(t, said, now))
            && (Open(t, said) ==> t'.header.dropReason.None?)
  {
  }

  lemma GiveAwayGoes(t: AssignmentTask, s: ServerState, now: Time, o: Observation, window: Time)
    requires ValidState(s) && !t.header.status.Pending?
    requires t.header.status.Failed? || t.header.status.AwaitingArrival? ==> t.header.dropReason.None?
    ensures var reported, said := ReportedTask(t, now, o), SaidOfGiveAway(t, o);
            var t' := UpdatedTask(reported, s, ByKey(s.assignments), now, window);
            && t'.header.status == GiveAwayStands(t, said, s, now, window)
            && t'.header.attempts == t.header.attempts && t'.header.lastIssued == t.header.lastIssued
            && t'.assignment == t.assignment
            && (t'.header.status.AwaitingArrival? ==> t'.sentAt == Sent(t, said, now))
            && (t'.header.status.Issued? ==>
                  (t'.header.dropReason.Some? <==> t.header.dropReason.Some? || !Listed(s, t.assignment)))
            && (reported.StopsNotLive(s, ByKey(s.assignments)) <==> Abandons(t, said, s))
  {
    ReportGoes(t, now, o);
    StateSays(s, ReportedTask(t, now, o));
  }

  // The whole job.

  ghost predicate StillWanted(m: DeciderState, o: Observation)
    requires m.job.Some? && LatestAfter(m, o).Some?
  {
    m.job.value.record.ownership.Some? ==> Wanted(m.cfg.id, m.job.value.record.ownership.value, LatestAfter(m, o).value)
  }

  ghost function CommandStandsIn(m: DeciderState, o: Observation, i: nat): Status
    requires m.job.Some? && LatestAfter(m, o).Some? && i < |m.job.value.commands|
  {
    CommandStands(m.job.value.commands[i].header, SaidOfCommand(m.job.value, o, i), StillWanted(m, o))
  }

  ghost function GiveAwayStandsIn(m: DeciderState, now: Time, o: Observation, i: nat): Status
    requires m.job.Some? && LatestAfter(m, o).Some? && i < |m.job.value.assignments|
  {
    var t := m.job.value.assignments[i];
    GiveAwayStands(t, SaidOfGiveAway(t, o), LatestAfter(m, o).value, now, m.cfg.arrivalWindow)
  }

  /** The names the job stops trying for want of a receiver. */
  ghost function Abandoned(m: DeciderState, o: Observation): set<AssignmentKey>
    requires m.job.Some? && LatestAfter(m, o).Some?
  {
    set t | t in m.job.value.assignments && Abandons(t, SaidOfGiveAway(t, o), LatestAfter(m, o).value) :: t.Key()
  }

  ghost predicate CommandWent(m: DeciderState, o: Observation, j': JobState, i: nat)
    requires m.job.Some? && LatestAfter(m, o).Some? && i < |m.job.value.commands| && i < |j'.commands|
  {
    var t, t' := m.job.value.commands[i], j'.commands[i];
    && t'.cmd == t.cmd && t'.header.status == CommandStandsIn(m, o, i)
    && t'.header.attempts == t.header.attempts && t'.header.lastIssued == t.header.lastIssued
    && (t'.header.status.Issued? ==>
          (t'.header.dropReason.Some? <==> t.header.dropReason.Some? || !StillWanted(m, o)))
  }

  ghost predicate GiveAwayWent(m: DeciderState, now: Time, o: Observation, j': JobState, i: nat)
    requires m.job.Some? && LatestAfter(m, o).Some? && i < |m.job.value.assignments| && i < |j'.assignments|
  {
    var t, t' := m.job.value.assignments[i], j'.assignments[i];
    && t'.assignment == t.assignment && t'.header.status == GiveAwayStandsIn(m, now, o, i)
    && t'.header.attempts == t.header.attempts && t'.header.lastIssued == t.header.lastIssued
    && (t'.header.status.AwaitingArrival? ==> t'.sentAt == Sent(t, SaidOfGiveAway(t, o), now))
    && (t'.header.status.Issued? ==>
          (t'.header.dropReason.Some? <==>
             t.header.dropReason.Some? || !Listed(LatestAfter(m, o).value, t.assignment)))
  }

  lemma {:induction false} IssuedBeforeIs(tasks: seq<CommandTask>, i: nat)
    requires i <= |tasks|
    ensures IssuedBefore(tasks, i) == |IssuedCommands(tasks[..i])|
  {
    if i > 0 {
      IssuedBeforeIs(tasks, i - 1);
      assert tasks[..i][..i - 1] == tasks[..i - 1];
    }
  }

  lemma CommandGoesIn(m: DeciderState, now: Time, o: Observation, i: nat)
    requires Inv(m, now) && ValidObservation(o) && m.job.Some? && i < |m.job.value.commands|
    ensures var seen := m.Observe(now, o).0;
            && seen.job.Some? && i < |seen.UpdatedJob(now).commands| && LatestAfter(m, o).Some?
            && CommandWent(m, o, seen.UpdatedJob(now), i)
  {
    var seen, j, t := m.Observe(now, o).0, m.job.value, m.job.value.commands[i];
    ObserveKeepsInv(m, now, o);
    UpdatedJobIs(seen, now);
    IssuedBeforeIs(j.commands, i);
    var silent := !(o.Ran? && t.header.status.Issued?);
    var result := if o.Ran? then ResultAt(o.outcomes, IssuedBefore(j.commands, i)) else Failure;
    CommandGoes(t.header, result, silent, j.record, LatestAfter(m, o).value, m.cfg.id);
    assert seen.job.value.commands[i].header == if silent then t.header else t.header.Report(result);
  }

  lemma GiveAwayGoesIn(m: DeciderState, now: Time, o: Observation, i: nat)
    requires Inv(m, now) && ValidObservation(o) && m.job.Some? && i < |m.job.value.assignments|
    ensures var seen := m.Observe(now, o).0;
            && seen.job.Some? && i < |seen.UpdatedJob(now).assignments| && LatestAfter(m, o).Some?
            && GiveAwayWent(m, now, o, seen.UpdatedJob(now), i)
            && seen.job.value.assignments[i] == ReportedTask(m.job.value.assignments[i], now, o)
  {
    var seen, t := m.Observe(now, o).0, m.job.value.assignments[i];
    ObserveKeepsInv(m, now, o);
    UpdatedJobIs(seen, now);
    assert AssignmentOk(m.cfg, m.handled.value, t, m.job.value.record.seqs, now);
    GiveAwayGoes(t, LatestAfter(m, o).value, now, o, m.cfg.arrivalWindow);
  }

  /** Whom the state stops are those abandoned. */
  lemma StopsIffAbandoned(m: DeciderState, now: Time, o: Observation, i: nat)
    requires Inv(m, now) && ValidObservation(o) && m.job.Some? && i < |m.job.value.assignments|
    ensures LatestAfter(m, o).Some?
    ensures var s, t := LatestAfter(m, o).value, m.job.value.assignments[i];
            && ReportedTask(t, now, o).Key() == t.Key()
            && (ReportedTask(t, now, o).StopsNotLive(s, ByKey(s.assignments)) <==>
                  Abandons(t, SaidOfGiveAway(t, o), s))
  {
    var s, t := LatestAfter(m, o).value, m.job.value.assignments[i];
    assert AssignmentOk(m.cfg, m.handled.value, t, m.job.value.record.seqs, now);
    GiveAwayGoes(t, s, now, o, m.cfg.arrivalWindow);
  }

  lemma AbandonedKeys(m: DeciderState, now: Time, o: Observation, seen: seq<AssignmentTask>)
    requires Inv(m, now) && ValidObservation(o) && m.job.Some? && |seen| == |m.job.value.assignments|
    requires forall i | 0 <= i < |seen| :: seen[i] == ReportedTask(m.job.value.assignments[i], now, o)
    ensures LatestAfter(m, o).Some?
    ensures NotLiveKeys(seen, LatestAfter(m, o).value, ByKey(LatestAfter(m, o).value.assignments)) == Abandoned(m, o)
  {
    var s, tasks := LatestAfter(m, o).value, m.job.value.assignments;
    var stopped := NotLiveKeys(seen, s, ByKey(s.assignments));
    forall key | key in stopped
      ensures key in Abandoned(m, o)
    {
      var i :| 0 <= i < |seen| && seen[i].StopsNotLive(s, ByKey(s.assignments)) && seen[i].Key() == key;
      StopsIffAbandoned(m, now, o, i);
      assert tasks[i] in tasks;
    }
    forall key | key in Abandoned(m, o)
      ensures key in stopped
    {
      var t :| t in tasks && Abandons(t, SaidOfGiveAway(t, o), s) && t.Key() == key;
      var i :| 0 <= i < |tasks| && tasks[i] == t;
      StopsIffAbandoned(m, now, o, i);
      assert seen[i] in seen;
    }
  }

  lemma AbandonedGo(m: DeciderState, now: Time, o: Observation)
    requires Inv(m, now) && ValidObservation(o) && m.job.Some?
    ensures var seen := m.Observe(now, o).0;
            && seen.WellFormed() && seen.job.Some? && LatestAfter(m, o).Some? && seen.latest == LatestAfter(m, o)
            && NotLiveKeys(seen.job.value.assignments, seen.latest.value, ByKey(seen.latest.value.assignments))
            == Abandoned(m, o)
            && seen.job.value.record == m.job.value.record
  {
    ObserveKeepsInv(m, now, o);
    AbandonedKeys(m, now, o, m.Observe(now, o).0.job.value.assignments);
  }

  predicate Final(cfg: Config, st: Status, h: Header) {
    st.Done? || st.Dropped? || (st.Failed? && h.attempts > cfg.switchRetries)
  }

  predicate TriesAgain(cfg: Config, st: Status, h: Header, now: Time) {
    st.Failed? && h.attempts <= cfg.switchRetries && h.lastIssued + cfg.retrySpacing <= now
  }

  ghost predicate AllFinal(m: DeciderState, now: Time, o: Observation)
    requires m.job.Some? && LatestAfter(m, o).Some?
  {
    && (forall i | 0 <= i < |m.job.value.commands| ::
          Final(m.cfg, CommandStandsIn(m, o, i), m.job.value.commands[i].header))
    && (forall i | 0 <= i < |m.job.value.assignments| ::
          Final(m.cfg, GiveAwayStandsIn(m, now, o, i), m.job.value.assignments[i].header))
  }

  /** No task awaits its result. */
  ghost predicate Free(m: DeciderState, now: Time, o: Observation)
    requires m.job.Some? && LatestAfter(m, o).Some?
  {
    && (forall i | 0 <= i < |m.job.value.commands| :: !CommandStandsIn(m, o, i).Issued?)
    && (forall i | 0 <= i < |m.job.value.assignments| :: !GiveAwayStandsIn(m, now, o, i).Issued?)
  }

  /** A give-away from this host ends in failure. */
  ghost predicate FailsMine(m: DeciderState, now: Time, o: Observation)
    requires m.job.Some? && LatestAfter(m, o).Some?
  {
    exists i :: 0 <= i < |m.job.value.assignments| && GiveAwayStandsIn(m, now, o, i).Failed?
                && m.job.value.assignments[i].assignment.prev == m.cfg.id
  }

  /** What a task standing at st goes on as: issued once more if it tries again, else as it stands. */
  ghost predicate GoesOn(cfg: Config, free: bool, st: Status, h: Header, now: Time, h': Header) {
    if free && TriesAgain(cfg, st, h, now) then
      h'.status.Issued? && h'.attempts == h.attempts + 1 && h'.lastIssued == now && h'.dropReason.None?
    else h'.status == st && h'.attempts == h.attempts && h'.lastIssued == h.lastIssued
  }

  /** The job in flight went on as j'. */
  ghost predicate WentOn(m: DeciderState, now: Time, o: Observation, j': JobState)
    requires m.job.Some? && LatestAfter(m, o).Some?
  {
    var j, free := m.job.value, Free(m, now, o);
    && |j'.commands| == |j.commands| && |j'.assignments| == |j.assignments|
    && (forall i | 0 <= i < |j.commands| ::
          && j'.commands[i].cmd == j.commands[i].cmd
          && GoesOn(m.cfg, free, CommandStandsIn(m, o, i), j.commands[i].header, now, j'.commands[i].header))
    && (forall i | 0 <= i < |j.assignments| ::
          && j'.assignments[i].assignment == j.assignments[i].assignment
          && GoesOn(m.cfg, free, GiveAwayStandsIn(m, now, o, i), j.assignments[i].header, now, j'.assignments[i].header)
          && (j'.assignments[i].header.status.AwaitingArrival? ==>
                j'.assignments[i].sentAt == Sent(j.assignments[i], SaidOfGiveAway(j.assignments[i], o), now)))
    && j'.record == Record(j.record.ownership, j.record.seqs - Abandoned(m, o))
  }

  /** The record once the job is over. */
  ghost function HandledAfter(m: DeciderState, o: Observation): Handled
    requires m.handled.Some? && m.job.Some? && LatestAfter(m, o).Some?
  {
    var rec := m.job.value.record;
    Handled(if rec.ownership.Some? then rec.ownership.value else m.handled.value.ownership,
            m.handled.value.seqs + (rec.seqs - Abandoned(m, o)))
  }

  /** The job brought up to date. */
  ghost predicate Stand(m: DeciderState, now: Time, o: Observation, j': JobState)
    requires m.job.Some? && LatestAfter(m, o).Some?
  {
    var j := m.job.value;
    && |j'.commands| == |j.commands| && |j'.assignments| == |j.assignments|
    && (forall i | 0 <= i < |j.commands| :: CommandWent(m, o, j', i))
    && (forall i | 0 <= i < |j.assignments| :: GiveAwayWent(m, now, o, j', i))
  }

  lemma JobStands(m: DeciderState, now: Time, o: Observation)
    requires Inv(m, now) && ValidObservation(o) && m.job.Some?
    ensures var seen := m.Observe(now, o).0;
            && seen.WellFormed() && seen.job.Some? && LatestAfter(m, o).Some? && seen.latest == LatestAfter(m, o)
            && seen.cfg == m.cfg && seen.handled == m.handled
            && var j, j' := m.job.value, seen.UpdatedJob(now);
            && Stand(m, now, o, j')
            && j'.record == Record(j.record.ownership, j.record.seqs - Abandoned(m, o))
  {
    AbandonedGo(m, now, o);
    ObservedReports(m, now, o);
    var seen, j := m.Observe(now, o).0, m.job.value;
    UpdatedJobIs(seen, now);
    forall i | 0 <= i < |j.commands|
      ensures CommandWent(m, o, seen.UpdatedJob(now), i)
    {
      CommandGoesIn(m, now, o, i);
    }
    forall i | 0 <= i < |j.assignments|
      ensures GiveAwayWent(m, now, o, seen.UpdatedJob(now), i)
    {
      GiveAwayGoesIn(m, now, o, i);
    }
  }

  lemma FinalIsSettled(cfg: Config, st: Status, h: Header, h': Header)
    requires h'.status == st && h'.attempts == h.attempts
    ensures Final(cfg, st, h) <==> h'.Settled(cfg.MaxAttempts())
  {
  }

  lemma IssuedGoesOn(cfg: Config, busy: bool, st: Status, h: Header, h': Header, now: Time)
    requires h'.status == st && h'.attempts == h.attempts && h'.lastIssued == h.lastIssued && !st.Pending?
    requires st.Failed? ==> h'.dropReason.None?
    ensures var after := if busy then h' else h'.IssueIfDue(now, cfg.MaxAttempts(), cfg.retrySpacing);
            GoesOn(cfg, !busy, st, h, now, after)
  {
  }

  lemma SettledIffFinal(m: DeciderState, now: Time, o: Observation, j': JobState)
    requires m.job.Some? && LatestAfter(m, o).Some? && Stand(m, now, o, j')
    ensures j'.Settled(m.cfg.MaxAttempts()) <==> AllFinal(m, now, o)
  {
    var j := m.job.value;
    forall i | 0 <= i < |j.commands|
      ensures Final(m.cfg, CommandStandsIn(m, o, i), j.commands[i].header)
         <==> j'.commands[i].header.Settled(m.cfg.MaxAttempts())
    {
      assert CommandWent(m, o, j', i);
      FinalIsSettled(m.cfg, CommandStandsIn(m, o, i), j.commands[i].header, j'.commands[i].header);
    }
    forall i | 0 <= i < |j.assignments|
      ensures Final(m.cfg, GiveAwayStandsIn(m, now, o, i), j.assignments[i].header)
         <==> j'.assignments[i].header.Settled(m.cfg.MaxAttempts())
    {
      assert GiveAwayWent(m, now, o, j', i);
      FinalIsSettled(m.cfg, GiveAwayStandsIn(m, now, o, i), j.assignments[i].header, j'.assignments[i].header);
    }
  }

  lemma BusyIffAwaited(m: DeciderState, now: Time, o: Observation, j': JobState)
    requires m.job.Some? && LatestAfter(m, o).Some? && Stand(m, now, o, j')
    ensures j'.Busy() <==> !Free(m, now, o)
    ensures AllFinal(m, now, o) ==> Free(m, now, o)
    ensures j'.NotifyFor(m.cfg.id) <==> FailsMine(m, now, o)
  {
    var j := m.job.value;
    forall i | 0 <= i < |j.commands|
      ensures CommandStandsIn(m, o, i) == j'.commands[i].header.status
    {
      assert CommandWent(m, o, j', i);
    }
    forall i | 0 <= i < |j.assignments|
      ensures GiveAwayStandsIn(m, now, o, i) == j'.assignments[i].header.status
      ensures j'.assignments[i].assignment == j.assignments[i].assignment
    {
      assert GiveAwayWent(m, now, o, j', i);
    }
  }

  lemma EndsIffFinal(m: DeciderState, now: Time, o: Observation)
    requires Inv(m, now) && ValidObservation(o) && m.job.Some?
    ensures var seen := m.Observe(now, o).0;
            && seen.job.Some? && LatestAfter(m, o).Some?
            && (EndsNow(seen, now) <==> AllFinal(m, now, o))
            && (seen.UpdatedJob(now).Busy() <==> !Free(m, now, o))
            && (seen.UpdatedJob(now).NotifyFor(m.cfg.id) <==> FailsMine(m, now, o))
  {
    JobStands(m, now, o);
    var j' := m.Observe(now, o).0.UpdatedJob(now);
    SettledIffFinal(m, now, o, j');
    BusyIffAwaited(m, now, o, j');
  }

  /** The tasks of j' that are due are issued, unless a result is awaited. */
  lemma StandGoesOn(m: DeciderState, now: Time, o: Observation, j': JobState, after: JobState)
    requires m.job.Some? && LatestAfter(m, o).Some? && Stand(m, now, o, j')
    requires j'.Busy() <==> !Free(m, now, o)
    requires after == if j'.Busy() then j' else j'.IssueTasks(now, m.cfg.MaxAttempts(), m.cfg.retrySpacing)
    requires j'.record == Record(m.job.value.record.ownership, m.job.value.record.seqs - Abandoned(m, o))
    requires forall i | 0 <= i < |j'.commands| ::
               !j'.commands[i].header.status.Pending?
               && (j'.commands[i].header.status.Failed? ==> j'.commands[i].header.dropReason.None?)
    requires forall i | 0 <= i < |j'.assignments| ::
               !j'.assignments[i].header.status.Pending?
               && (j'.assignments[i].header.status.Failed? ==> j'.assignments[i].header.dropReason.None?)
    ensures WentOn(m, now, o, after)
  {
    var j, busy := m.job.value, j'.Busy();
    forall i | 0 <= i < |j.commands|
      ensures after.commands[i].cmd == j.commands[i].cmd
      ensures GoesOn(m.cfg, !busy, CommandStandsIn(m, o, i), j.commands[i].header, now, after.commands[i].header)
    {
      assert CommandWent(m, o, j', i);
      IssuedGoesOn(m.cfg, busy, CommandStandsIn(m, o, i), j.commands[i].header, j'.commands[i].header, now);
    }
    forall i | 0 <= i < |j.assignments|
      ensures after.assignments[i].assignment == j.assignments[i].assignment
      ensures GoesOn(m.cfg, !busy, GiveAwayStandsIn(m, now, o, i), j.assignments[i].header, now,
                     after.assignments[i].header)
      ensures after.assignments[i].header.status.AwaitingArrival? ==>
                after.assignments[i].sentAt == Sent(j.assignments[i], SaidOfGiveAway(j.assignments[i], o), now)
    {
      assert GiveAwayWent(m, now, o, j', i);
      IssuedGoesOn(m.cfg, busy, GiveAwayStandsIn(m, now, o, i), j.assignments[i].header,
                   j'.assignments[i].header, now);
    }
  }

  lemma GoesOnInFlight(m: DeciderState, now: Time, o: Observation)
    requires Inv(m, now) && ValidObservation(o) && m.job.Some?
    ensures var seen := m.Observe(now, o).0;
            seen.job.Some? && LatestAfter(m, o).Some? && WentOn(m, now, o, Waking.InFlight(seen, now))
  {
    JobStands(m, now, o);
    EndsIffFinal(m, now, o);
    ObserveKeepsInv(m, now, o);
    var seen := m.Observe(now, o).0;
    UpdateKeepsJob(seen, now);
    StandGoesOn(m, now, o, seen.UpdatedJob(now), Waking.InFlight(seen, now));
  }

  /** What one observation makes of the job in flight. It ends exactly when no task is left to wait for
      or to try again; it then saves what it did not abandon, and notifies of a give-away of this
      host's that failed. Else its tasks go on, and those with a retry left and their spacing past are
      issued together as soon as no result is awaited. */
  lemma JobLaw(m: DeciderState, before: Time, now: Time, o: Observation)
    requires Inv(m, before) && before <= now && ValidObservation(o) && m.job.Some?
    ensures LatestAfter(m, o).Some? && ValidKeys(HandledAfter(m, o).seqs)
    ensures var (m', ds) := m.Decide(now, o);
            if AllFinal(m, now, o) then
              && ds != []
              && ds[0] == Decision(None, [], [], FailsMine(m, now, o), Some(HandledAfter(m, o).Persisted()))
            else
              && m'.job.Some? && WentOn(m, now, o, m'.job.value)
              && (forall d | d in ds :: d.save.None? && !d.notify)
              && m'.handled == m.handled && m'.limits == m.limits
  {
    InvLater(m, before, now);
    ObserveKeepsInv(m, now, o);
    JobStands(m, now, o);
    EndsIffFinal(m, now, o);
    var (seen, none) := m.Observe(now, o);
    AdvanceTimeUnfolds(seen, now);
    if !AllFinal(m, now, o) {
      StaysInFlight(seen, now);
      GoesOnInFlight(m, now, o);
    }
  }
}
