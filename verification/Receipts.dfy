/** A device is done only on a receipt, over any run. */
module Receipts {
  import opened Options
  import opened State
  import opened Policy
  import opened Jobs
  import opened Deciding
  import opened DeciderInvariant
  import opened TaskLife
  import opened Waking
  import Runs

  ghost predicate ShownArrived(s: ServerState, a: Assignment) {
    exists c :: c in s.assignments && c.Key() == a.Key() && c.seqno == a.seqno && c.arrived
  }

  /** o reports nothing to move for a, which m has issued. */
  ghost predicate NotHereReported(m: DeciderState, o: Observation, a: Assignment) {
    && o.GaveAway? && a.Key() in o.results && o.results[a.Key()].NotHere?
    && m.job.Some?
    && exists t :: t in m.job.value.assignments && t.assignment == a && t.header.status.Issued?
  }

  /** o, observed by m, is a receipt for a: nothing to move here, or a state showing it arrived. */
  ghost predicate Receipt(m: DeciderState, o: Observation, a: Assignment) {
    NotHereReported(m, o, a) || (o.Seen? && ShownArrived(o.state, a))
  }

  ghost predicate DoneDevice(t: AssignmentTask) {
    t.header.status.Done? && t.assignment.kind == KIND_HID
  }

  lemma ObservedDone(m: DeciderState, now: Time, o: Observation, i: nat)
    requires m.WellFormed() && ValidObservation(o) && m.job.Some? && i < |m.job.value.assignments|
    ensures var m' := m.Observe(now, o).0;
            && m'.job.Some? && |m'.job.value.assignments| == |m.job.value.assignments|
            && m'.job.value.assignments[i].assignment == m.job.value.assignments[i].assignment
            && (DoneDevice(m'.job.value.assignments[i]) ==>
                  || DoneDevice(m.job.value.assignments[i])
                  || NotHereReported(m, o, m.job.value.assignments[i].assignment))
  {
  }

  lemma UpdatedDone(m: DeciderState, now: Time, i: nat)
    requires Inv(m, now) && m.job.Some? && i < |m.job.value.assignments|
    ensures i < |InFlight(m, now).assignments|
    ensures InFlight(m, now).assignments[i].assignment == m.job.value.assignments[i].assignment
    ensures DoneDevice(InFlight(m, now).assignments[i]) ==>
              || DoneDevice(m.job.value.assignments[i])
              || ShownArrived(m.latest.value, m.job.value.assignments[i].assignment)
  {
    UpdatedJobIs(m, now);
    ByKeyMembers(m.latest.value.assignments);
    var t, current := m.job.value.assignments[i], ByKey(m.latest.value.assignments);
    if t.ArrivedIn(current) {
      assert current[t.Key()] in m.latest.value.assignments;
    }
  }

  ghost predicate AllIssued(j: JobState) {
    forall i | 0 <= i < |j.assignments| :: j.assignments[i].header.status.Issued?
  }

  lemma BuiltTurnIssuesAll(m: DeciderState, now: Time)
    requires Between(m, now) && m.JustBuilt(now)
    ensures m.TakeTurn(now).m.job.Some? ==> AllIssued(m.TakeTurn(now).m.job.value)
  {
    FreshJobIsUpToDate(m, now);
    BuiltIsOk(m, now);
    assert !m.UpdatedJob(now).Busy();
  }

  /** A job built at now is issued whole: none of its tasks is done. */
  lemma BuiltIsIssuedWhole(m: DeciderState, now: Time)
    requires Between(m, now) && (m.job.Some? ==> m.JustBuilt(now))
    ensures var m' := m.AdvanceTime(now).0;
            m'.job.Some? ==> AllIssued(m'.job.value)
    decreases m.OldJob(now), m.OpenEdge(), m.UnhandledCount(), m.DueClaim(now), m.JobToBuild()
  {
    AdvanceTimeUnfolds(m, now);
    if m.job.Some? {
      BuiltTurnIssuesAll(m, now);
    }
    if !m.TakeTurn(now).stop {
      TurnIssues(m, now);
      TurnDecreases(m, now);
      BuiltIsIssuedWhole(m.TakeTurn(now).m, now);
    }
  }

  lemma AdvancedDone(m: DeciderState, now: Time, t: AssignmentTask)
    requires Inv(m, now) && DoneDevice(t)
    requires m.AdvanceTime(now).0.job.Some? && t in m.AdvanceTime(now).0.job.value.assignments
    ensures m.job.Some? && m.latest.Some?
    ensures exists i :: 0 <= i < |m.job.value.assignments|
                        && m.job.value.assignments[i].assignment == t.assignment
                        && (DoneDevice(m.job.value.assignments[i]) || ShownArrived(m.latest.value, t.assignment))
  {
    if m.job.Some? && !EndsNow(m, now) {
      StaysInFlight(m, now);
      var i :| 0 <= i < |InFlight(m, now).assignments| && InFlight(m, now).assignments[i] == t;
      UpdatedJobIs(m, now);
      UpdatedDone(m, now, i);
    } else {
      AdvanceTimeUnfolds(m, now);
      TurnIssues(m, now);
      BuiltIsIssuedWhole(if m.job.Some? then m.TakeTurn(now).m else m, now);
      assert false;
    }
  }

  /** A device task done after an observation was done before it, or the observation reported
      nothing to move, or the newest state shows it arrived. */
  lemma DoneOnReceipt(m: DeciderState, now: Time, o: Observation, t: AssignmentTask)
    requires Inv(m, now) && ValidObservation(o) && DoneDevice(t)
    requires m.Decide(now, o).0.job.Some? && t in m.Decide(now, o).0.job.value.assignments
    ensures var m' := m.Decide(now, o).0;
            || (m.job.Some?
                && exists t' :: t' in m.job.value.assignments && t'.assignment == t.assignment && DoneDevice(t'))
            || NotHereReported(m, o, t.assignment)
            || (m'.latest.Some? && ShownArrived(m'.latest.value, t.assignment))
  {
    ObserveKeepsInv(m, now, o);
    var seen := m.Observe(now, o).0;
    AdvancedDone(seen, now, t);
    Runs.AdvanceKeepsConfig(seen, now);
    if !ShownArrived(seen.latest.value, t.assignment) {
      var i :| 0 <= i < |seen.job.value.assignments| && seen.job.value.assignments[i].assignment == t.assignment
               && DoneDevice(seen.job.value.assignments[i]);
      ObservedDone(m, now, o, i);
    }
  }

  /** The i-th observation of the run is a receipt for a. */
  ghost predicate ReceiptAt(cfg: Config, handled: Option<Handled>, events: seq<Runs.Event>, i: nat, a: Assignment)
    requires Runs.ValidStart(cfg, handled) && Runs.ValidRun(events) && i < |events|
  {
    Receipt(Runs.RunOf(cfg, handled, events[..i]), events[i].o, a)
  }

  /** The newest state was observed. */
  lemma {:induction false} LatestWasSeen(cfg: Config, handled: Option<Handled>, events: seq<Runs.Event>)
    requires Runs.ValidStart(cfg, handled) && Runs.ValidRun(events)
    ensures var m := Runs.RunOf(cfg, handled, events);
            m.latest.Some? ==> exists i :: 0 <= i < |events| && events[i].o == Seen(m.latest.value)
  {
    if events != [] {
      Runs.LastStep(cfg, handled, events);
      var init, e := events[..|events| - 1], events[|events| - 1];
      LatestWasSeen(cfg, handled, init);
      var m := Runs.RunOf(cfg, handled, init);
      ObserveKeepsWellFormed(m, e.now, e.o);
      Runs.AdvanceKeepsConfig(m.Observe(e.now, e.o).0, e.now);
      if m.latest.Some? {
        var i :| 0 <= i < |init| && init[i].o == Seen(m.latest.value);
        assert events[i].o == Seen(m.latest.value);
      }
      assert events[|events| - 1].o == e.o;
    }
  }

  ghost predicate HoldsDone(m: DeciderState, a: Assignment) {
    m.job.Some? && exists t :: t in m.job.value.assignments && t.assignment == a && DoneDevice(t)
  }

  /** Done by the last observation, or before it. */
  lemma DoneNowOrBefore(cfg: Config, handled: Option<Handled>, events: seq<Runs.Event>, a: Assignment)
    requires Runs.ValidStart(cfg, handled) && Runs.ValidRun(events) && events != []
    requires HoldsDone(Runs.RunOf(cfg, handled, events), a)
    ensures Runs.ValidRun(events[..|events| - 1])
    ensures || HoldsDone(Runs.RunOf(cfg, handled, events[..|events| - 1]), a)
            || exists i :: 0 <= i < |events| && ReceiptAt(cfg, handled, events, i, a)
  {
    Runs.LastStep(cfg, handled, events);
    LatestWasSeen(cfg, handled, events);
    var init, e := events[..|events| - 1], events[|events| - 1];
    var m, m' := Runs.RunOf(cfg, handled, init), Runs.RunOf(cfg, handled, events);
    var t :| t in m'.job.value.assignments && t.assignment == a && DoneDevice(t);
    DoneOnReceipt(m, e.now, e.o, t);
    if NotHereReported(m, e.o, a) {
      assert ReceiptAt(cfg, handled, events, |events| - 1, a);
    } else if m'.latest.Some? && ShownArrived(m'.latest.value, a) {
      var i :| 0 <= i < |events| && events[i].o == Seen(m'.latest.value);
      assert ReceiptAt(cfg, handled, events, i, a);
    }
  }

  /** In every reachable decider a done device task has its receipt among the observations:
      a successful send, a closed window or a drop never makes it done. */
  lemma {:induction false} DevicesAreDoneOnReceipt(cfg: Config, handled: Option<Handled>, events: seq<Runs.Event>,
                                                   a: Assignment)
    requires Runs.ValidStart(cfg, handled) && Runs.ValidRun(events)
    requires HoldsDone(Runs.RunOf(cfg, handled, events), a)
    ensures exists i :: 0 <= i < |events| && ReceiptAt(cfg, handled, events, i, a)
  {
    if events != [] {
      DoneNowOrBefore(cfg, handled, events, a);
      var init := events[..|events| - 1];
      if HoldsDone(Runs.RunOf(cfg, handled, init), a) {
        DevicesAreDoneOnReceipt(cfg, handled, init, a);
        var i :| 0 <= i < |init| && ReceiptAt(cfg, handled, init, i, a);
        assert events[..i] == init[..i];
        assert ReceiptAt(cfg, handled, events, i, a);
      }
    }
  }
}
