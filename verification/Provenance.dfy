/** Where the work a decider issues comes from: the states it observed. */
module Provenance {
  import opened Options
  import opened State
  import opened Jobs
  import opened Deciding
  import opened DeciderInvariant
  import Runs

  /** The newest state lists known assignments only, and activates whoever owns. */
  ghost predicate KnownState(me: HostId, s: ServerState, known: iset<Assignment>) {
    && (forall a | a in s.assignments :: a in known)
    && (s.owner == me ==> s.activation != 0)
  }

  ghost predicate KnownJob(j: JobState, known: iset<Assignment>) {
    && (forall i | 0 <= i < |j.assignments| :: j.assignments[i].assignment in known)
    && (forall i | 0 <= i < |j.commands| :: j.commands[i].cmd.ExactlyOneField())
  }

  ghost predicate From(m: DeciderState, known: iset<Assignment>) {
    && (m.latest.Some? ==> KnownState(m.cfg.id, m.latest.value, known))
    && (m.job.Some? ==> KnownJob(m.job.value, known))
  }

  lemma BuiltIsKnown(m: DeciderState, now: Time, known: iset<Assignment>)
    requires m.WellFormed() && m.latest.Some? && KnownState(m.cfg.id, m.latest.value, known) && m.Reconcile(now).Some?
    ensures KnownJob(m.Reconcile(now).value, known)
  {
    var j := m.Reconcile(now).value;
    if !m.ActivationEdge(m.latest.value) && !m.DeactivationEdge(m.latest.value) {
      forall t | t in j.assignments
        ensures t.assignment in known
      {
        BuiltTaskIsOk(m, now, t);
      }
    }
  }

  lemma TurnKeepsFrom(m: DeciderState, now: Time, known: iset<Assignment>)
    requires m.WellFormed() && From(m, known)
    ensures From(m.TakeTurn(now).m, known)
  {
    if m.job.Some? {
      UpdatedJobIs(m, now);
    } else if m.latest.Some? && m.Reconcile(now).Some? {
      BuiltIsKnown(m, now, known);
    }
  }

  lemma AdvanceKeepsFrom(m: DeciderState, now: Time, known: iset<Assignment>)
    requires m.WellFormed() && From(m, known)
    ensures From(m.AdvanceTime(now).0, known)
    decreases m.OldJob(now), m.OpenEdge(), m.UnhandledCount(), m.DueClaim(now), m.JobToBuild()
  {
    AdvanceTimeUnfolds(m, now);
    TurnKeepsFrom(m, now, known);
    if !m.TakeTurn(now).stop {
      TurnDecreases(m, now);
      AdvanceKeepsFrom(m.TakeTurn(now).m, now, known);
    }
  }

  lemma DecideKeepsFrom(m: DeciderState, now: Time, o: Observation, known: iset<Assignment>)
    requires m.WellFormed() && ValidObservation(o) && From(m, known)
    requires o.Seen? ==> KnownState(m.cfg.id, o.state, known)
    ensures From(m.Decide(now, o).0, known)
  {
    ObserveKeepsWellFormed(m, now, o);
    AdvanceKeepsFrom(m.Observe(now, o).0, now, known);
  }

  /** Every assignment given away and every command run, in order. */
  function Given(ds: seq<Decision>): seq<Assignment> {
    if ds == [] then [] else Given(ds[..|ds| - 1]) + ds[|ds| - 1].giveAway
  }

  function Commands(ds: seq<Decision>): seq<Command> {
    if ds == [] then [] else Commands(ds[..|ds| - 1]) + ds[|ds| - 1].run
  }

  lemma {:induction false} GivenIsIssued(ds: seq<Decision>, issues: seq<Issue>)
    requires IssuesIn(ds) == issues && |issues| <= 1
    ensures issues == [] ==> Given(ds) == [] && Commands(ds) == []
    ensures issues != [] ==> Given(ds) == issues[0].giveAway && Commands(ds) == issues[0].run
  {
    if ds != [] {
      GivenIsIssued(ds[..|ds| - 1], IssuesIn(ds[..|ds| - 1]));
    }
  }

  /** The newest state after an observation: the state just observed, unless it was adopted as
      the first record. */
  function LatestAfter(m: DeciderState, o: Observation): Option<ServerState> {
    if o.Seen? && m.handled.Some? then Some(o.state) else m.latest
  }

  lemma DecideLatest(m: DeciderState, now: Time, o: Observation)
    requires m.WellFormed() && ValidObservation(o)
    ensures var m' := m.Decide(now, o).0;
            && m'.cfg == m.cfg && m'.latest == LatestAfter(m, o)
            && (m.handled.Some? || o.Seen? ==> m'.handled.Some?)
  {
    ObserveKeepsWellFormed(m, now, o);
    Runs.AdvanceKeepsConfig(m.Observe(now, o).0, now);
    AdvanceKeepsHandled(m.Observe(now, o).0, now);
  }

  lemma AdvanceUnstarted(m: DeciderState, now: Time)
    requires m.WellFormed() && m.latest.None? && m.job.None?
    ensures m.AdvanceTime(now).0.handled == m.handled
    decreases m.OldJob(now), m.OpenEdge(), m.UnhandledCount(), m.DueClaim(now), m.JobToBuild()
  {
    AdvanceTimeUnfolds(m, now);
    if !m.TakeTurn(now).stop {
      TurnDecreases(m, now);
      AdvanceUnstarted(m.TakeTurn(now).m, now);
    }
  }

  /** With no newest state the record changes only by adopting a first one. */
  lemma DecideUnstarted(m: DeciderState, now: Time, o: Observation)
    requires m.WellFormed() && ValidObservation(o) && m.latest.None? && m.job.None?
    ensures var m' := m.Decide(now, o).0;
            && (!o.Seen? ==> m'.handled == m.handled)
            && (o.Seen? && m.handled.None? ==> m'.handled == Some(m.Adopted(o.state)))
  {
    ObserveKeepsWellFormed(m, now, o);
    if !(o.Seen? && m.handled.Some?) {
      AdvanceUnstarted(m.Observe(now, o).0, now);
    }
  }

  lemma AdvanceKeepsHandled(m: DeciderState, now: Time)
    requires m.WellFormed()
    ensures m.handled.Some? ==> m.AdvanceTime(now).0.handled.Some?
    decreases m.OldJob(now), m.OpenEdge(), m.UnhandledCount(), m.DueClaim(now), m.JobToBuild()
  {
    AdvanceTimeUnfolds(m, now);
    if !m.TakeTurn(now).stop {
      TurnDecreases(m, now);
      AdvanceKeepsHandled(m.TakeTurn(now).m, now);
    }
  }

  /** Every give-away and every command of a decision is allowed by the newest state. */
  lemma DecidedIsAllowed(m: DeciderState, before: Time, now: Time, o: Observation)
    requires Inv(m, before) && before <= now && ValidObservation(o)
    ensures var (m', ds) := m.Decide(now, o);
            && Inv(m', now)
            && (forall a | a in Given(ds) :: GiveAwayAllowed(m', now, a) && InJob(m', a))
            && (forall c | c in Commands(ds) :: RunAllowed(m', c) && CommandInJob(m', c))
  {
    OneIssueAtATime(m, before, now, o);
    var (m', ds) := m.Decide(now, o);
    GivenIsIssued(ds, IssuesIn(ds));
    if m'.job.Some? {
      IssuedCommandsFacts(m'.job.value.commands);
      IssuedAssignmentsFacts(m'.job.value.assignments);
    }
  }

  ghost predicate InJob(m: DeciderState, a: Assignment) {
    m.job.Some? && exists i :: 0 <= i < |m.job.value.assignments| && m.job.value.assignments[i].assignment == a
  }

  ghost predicate CommandInJob(m: DeciderState, c: Command) {
    m.job.Some? && exists i :: 0 <= i < |m.job.value.commands| && m.job.value.commands[i].cmd == c
  }

  /** What one observation makes a host give away: each assignment is one the newest state still
      lists at that seq, with another host live as its assignee, and comes from a state
      observed; each command has exactly one field. */
  lemma DecideGives(m: DeciderState, before: Time, now: Time, o: Observation, known: iset<Assignment>)
    requires Inv(m, before) && before <= now && ValidObservation(o) && From(m, known)
    requires o.Seen? ==> KnownState(m.cfg.id, o.state, known)
    ensures var (m', ds) := m.Decide(now, o);
            && Inv(m', now) && From(m', known)
            && (forall a | a in Given(ds) :: a in known && GiveAwayAllowed(m', now, a))
            && (forall c | c in Commands(ds) :: c.ExactlyOneField() && RunAllowed(m', c))
  {
    DecideKeepsFrom(m, now, o, known);
    DecidedIsAllowed(m, before, now, o);
  }
}
