/** Runs of the decider: observations at times that never go back. */
module Runs {
  import opened Options
  import opened State
  import opened Policy
  import opened Deciding
  import opened DeciderInvariant

  datatype Event = Event(now: Time, o: Observation)

  ghost predicate ValidRun(events: seq<Event>) {
    && (forall i, j | 0 <= i <= j < |events| :: events[i].now <= events[j].now)
    && (forall i | 0 <= i < |events| :: ValidObservation(events[i].o))
  }

  ghost predicate ValidStart(cfg: Config, handled: Option<Handled>) {
    cfg.Valid() && (handled.Some? ==> ValidKeys(handled.value.seqs))
  }

  /** When the run last observed; 0 before it observed anything. */
  function End(events: seq<Event>): Time {
    if events == [] then 0 else events[|events| - 1].now
  }

  lemma RunPrefix(events: seq<Event>)
    requires ValidRun(events) && events != []
    ensures ValidRun(events[..|events| - 1])
  {
  }

  /** The decider after a run from its start. */
  ghost function RunOf(cfg: Config, handled: Option<Handled>, events: seq<Event>): (m: DeciderState)
    requires ValidStart(cfg, handled) && ValidRun(events)
    ensures m.cfg == cfg && Inv(m, End(events))
  {
    if events == [] then Started(cfg, handled)
    else
      RunPrefix(events);
      var init, e := events[..|events| - 1], events[|events| - 1];
      var m := RunOf(cfg, handled, init);
      assert events == init + [e];
      StepKeeps(cfg, handled, init, m, e);
      m.Decide(e.now, e.o).0
  }

  lemma DecideKeeps(m: DeciderState, now: Time, o: Observation)
    requires Inv(m, now) && ValidObservation(o)
    ensures m.Decide(now, o).0.cfg == m.cfg && Inv(m.Decide(now, o).0, now)
  {
    OneIssueAtATime(m, now, now, o);
    ObserveKeepsWellFormed(m, now, o);
    AdvanceKeepsConfig(m.Observe(now, o).0, now);
  }

  lemma StepKeeps(cfg: Config, handled: Option<Handled>, init: seq<Event>, m: DeciderState, e: Event)
    requires ValidStart(cfg, handled) && ValidRun(init + [e])
    requires m.cfg == cfg && Inv(m, End(init)) && (init == [] ==> m == Started(cfg, handled))
    ensures ValidObservation(e.o) && Inv(m, e.now)
    ensures m.Decide(e.now, e.o).0.cfg == cfg && Inv(m.Decide(e.now, e.o).0, e.now)
  {
    assert (init + [e])[|init|] == e;
    if init == [] {
      StartedIsOk(cfg, handled, e.now);
    } else {
      assert (init + [e])[|init| - 1] == init[|init| - 1];
      InvLater(m, End(init), e.now);
    }
    DecideKeeps(m, e.now, e.o);
  }

  /** The last step of a run. */
  lemma LastStep(cfg: Config, handled: Option<Handled>, events: seq<Event>)
    requires ValidStart(cfg, handled) && ValidRun(events) && events != []
    ensures var init, e := events[..|events| - 1], events[|events| - 1];
            && ValidRun(init) && ValidObservation(e.o)
            && (init != [] ==> End(init) <= e.now)
            && Inv(RunOf(cfg, handled, init), e.now)
            && RunOf(cfg, handled, events) == RunOf(cfg, handled, init).Decide(e.now, e.o).0
  {
    RunPrefix(events);
    var init, e := events[..|events| - 1], events[|events| - 1];
    assert events == init + [e];
    StepKeeps(cfg, handled, init, RunOf(cfg, handled, init), e);
  }

  lemma AdvanceKeepsConfig(m: DeciderState, now: Time)
    requires m.WellFormed()
    ensures m.AdvanceTime(now).0.cfg == m.cfg && m.AdvanceTime(now).0.latest == m.latest
    decreases m.OldJob(now), m.OpenEdge(), m.UnhandledCount(), m.DueClaim(now), m.JobToBuild()
  {
    AdvanceTimeUnfolds(m, now);
    if !m.TakeTurn(now).stop {
      TurnDecreases(m, now);
      AdvanceKeepsConfig(m.TakeTurn(now).m, now);
    }
  }
}
