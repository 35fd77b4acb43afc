/** When a host claims, told from what it observed alone. */
module Claiming {
  import opened Options
  import opened State
  import opened Policy
  import opened Jobs
  import opened Deciding
  import opened Runs

  /** The claims among decisions, in order. */
  function Claims(ds: seq<Decision>): seq<HostId> {
    if ds == [] then []
    else
      var d := ds[|ds| - 1];
      Claims(ds[..|ds| - 1]) + if d.claim.Some? then [d.claim.value] else []
  }

  lemma {:induction false} ClaimsConcat(a: seq<Decision>, b: seq<Decision>)
    ensures Claims(a + b) == Claims(a) + Claims(b)
  {
    if b == [] {
      assert a + b == a;
    } else {
      ClaimsConcat(a, b[..|b| - 1]);
      assert (a + b)[..|a + b| - 1] == a + b[..|b| - 1] && (a + b)[|a + b| - 1] == b[|b| - 1];
    }
  }

  lemma ClaimsOfOne(d: Decision)
    ensures Claims([d]) == if d.claim.Some? then [d.claim.value] else []
  {
    assert [d][..0] == [];
  }

  /** The last attach still wants a claim, and its delay is over by now. */
  predicate SettledAttach(cfg: Config, lastAttach: Option<Time>, claimedAttach: Option<Time>, now: Time) {
    lastAttach.Some? && claimedAttach != lastAttach && lastAttach.value + cfg.settle <= now
  }

  /** What one turn does about claims. */
  lemma TurnClaims(m: DeciderState, now: Time)
    requires m.WellFormed()
    ensures var t := m.TakeTurn(now);
            && t.m.lastAttach == m.lastAttach && t.m.cfg == m.cfg
            && (if m.job.None? && SettledAttach(m.cfg, m.lastAttach, m.claimedAttach, now) then
                  Claims(t.decisions) == [m.cfg.id] && t.m.claimedAttach == m.lastAttach && t.m.job.None? && !t.stop
                else
                  Claims(t.decisions) == [] && t.m.claimedAttach == m.claimedAttach)
  {
    var t := m.TakeTurn(now);
    if t.decisions != [] {
      ClaimsOfOne(t.decisions[0]);
    }
  }

  /** What advancing does about claims: one for a settled attach with no job in the way. */
  ghost predicate ClaimsOnce(m: DeciderState, m': DeciderState, claims: seq<HostId>, now: Time) {
    && m'.lastAttach == m.lastAttach && m'.cfg == m.cfg
    && (|| (claims == [] && m'.claimedAttach == m.claimedAttach
            && (m'.job.None? ==> !SettledAttach(m.cfg, m.lastAttach, m.claimedAttach, now)))
        || (claims == [m.cfg.id] && m'.claimedAttach == m.lastAttach
            && SettledAttach(m.cfg, m.lastAttach, m.claimedAttach, now)))
  }

  lemma AdvanceClaims(m: DeciderState, now: Time)
    requires m.WellFormed()
    ensures ClaimsOnce(m, m.AdvanceTime(now).0, Claims(m.AdvanceTime(now).1), now)
    decreases m.OldJob(now), m.OpenEdge(), m.UnhandledCount(), m.DueClaim(now), m.JobToBuild()
  {
    AdvanceTimeUnfolds(m, now);
    TurnClaims(m, now);
    var t := m.TakeTurn(now);
    if !t.stop {
      TurnDecreases(m, now);
      AdvanceClaims(t.m, now);
      ClaimsConcat(t.decisions, t.m.AdvanceTime(now).1);
    }
  }

  lemma DecideClaims(m: DeciderState, now: Time, o: Observation)
    requires m.WellFormed() && ValidObservation(o)
    ensures ClaimsOnce(m.(lastAttach := if o.Attach? then Some(now) else m.lastAttach), m.Decide(now, o).0,
                       Claims(m.Decide(now, o).1), now)
  {
    ObserveKeepsWellFormed(m, now, o);
    var (seen, ds) := m.Observe(now, o);
    AdvanceClaims(seen, now);
    ClaimsConcat(ds, seen.AdvanceTime(now).1);
    if ds != [] {
      ClaimsOfOne(ds[0]);
    }
  }

  // Over any run, from the observations.

  function LastAttach(events: seq<Event>): Option<Time> {
    if events == [] then None
    else
      var e := events[|events| - 1];
      if e.o.Attach? then Some(e.now) else LastAttach(events[..|events| - 1])
  }

  /** The claims decided by the last observation of a run. */
  ghost function ClaimsAt(cfg: Config, handled: Option<Handled>, events: seq<Event>): seq<HostId>
    requires ValidStart(cfg, handled) && ValidRun(events) && events != []
  {
    LastStep(cfg, handled, events);
    var e := events[|events| - 1];
    Claims(RunOf(cfg, handled, events[..|events| - 1]).Decide(e.now, e.o).1)
  }

  /** How many claims were decided since the last attach, from its own decision on. */
  ghost function ClaimsSince(cfg: Config, handled: Option<Handled>, events: seq<Event>): nat
    requires ValidStart(cfg, handled) && ValidRun(events)
  {
    if events == [] then 0
    else
      LastStep(cfg, handled, events);
      var init := events[..|events| - 1];
      |ClaimsAt(cfg, handled, events)|
      + if events[|events| - 1].o.Attach? then 0 else ClaimsSince(cfg, handled, init)
  }

  /** The attach times a decider holds are the run's. */
  ghost predicate Attaches(cfg: Config, m: DeciderState, lastAttach: Option<Time>, claims: nat, now: Time) {
    && m.cfg == cfg && m.lastAttach == lastAttach
    && (m.claimedAttach.Some? ==> lastAttach.Some? && m.claimedAttach.value + cfg.settle <= now)
    && (lastAttach.None? ==> claims == 0)
    && (lastAttach.Some? ==> lastAttach.value <= now
                             && claims == if m.claimedAttach == lastAttach then 1 else 0)
  }

  lemma {:induction false} RunAttaches(cfg: Config, handled: Option<Handled>, events: seq<Event>)
    requires ValidStart(cfg, handled) && ValidRun(events)
    ensures Attaches(cfg, RunOf(cfg, handled, events), LastAttach(events), ClaimsSince(cfg, handled, events),
                     End(events))
  {
    if events != [] {
      LastStep(cfg, handled, events);
      var init, e := events[..|events| - 1], events[|events| - 1];
      RunAttaches(cfg, handled, init);
      DecideClaims(RunOf(cfg, handled, init), e.now, e.o);
    }
  }

  /** Claims over any run. A claim is always for this host and at most one is decided at a time. It
      answers the last attach, a settle delay after it or later, and nothing claimed since; and from
      then on any decision that leaves no job in flight finds it decided, exactly once. */
  lemma ClaimsAnswerAttaches(cfg: Config, handled: Option<Handled>, events: seq<Event>)
    requires ValidStart(cfg, handled) && ValidRun(events) && events != []
    ensures ValidRun(events[..|events| - 1])
    ensures var claims, now, at := ClaimsAt(cfg, handled, events), End(events), LastAttach(events);
            && (claims == [] || claims == [cfg.id])
            && (claims != [] ==>
                  && at.Some? && at.value + cfg.settle <= now && !events[|events| - 1].o.Attach?
                  && ClaimsSince(cfg, handled, events[..|events| - 1]) == 0)
            && (at.Some? && at.value + cfg.settle <= now && RunOf(cfg, handled, events).job.None? ==>
                  ClaimsSince(cfg, handled, events) == 1)
            && (at.None? || now < at.value + cfg.settle ==> ClaimsSince(cfg, handled, events) == 0)
  {
    LastStep(cfg, handled, events);
    var init, e := events[..|events| - 1], events[|events| - 1];
    RunAttaches(cfg, handled, init);
    RunAttaches(cfg, handled, events);
    DecideClaims(RunOf(cfg, handled, init), e.now, e.o);
  }
}
