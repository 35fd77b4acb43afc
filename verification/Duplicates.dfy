/** Why the loop needs each key listed once: with a key listed twice it need not end. */
module Duplicates {
  import opened Options
  import opened State
  import opened Policy
  import opened RateLimiting
  import opened Jobs
  import opened Deciding

  const KEYBOARD := AssignmentKey(KIND_HID, "keyboard")

  function Listed(seqno: Seq): Assignment {
    Assignment(KIND_HID, "keyboard", "other", "", seqno, "", 1, true)
  }

  /** The keyboard, arrived on another host, at two seqs. */
  const TWICE := ServerState("other", 2, 1, map["other" := true], [Listed(1), Listed(2)])

  function Idle(cfg: Config, seqno: Seq): DeciderState {
    DeciderState(cfg, Some(Handled(Ownership("other", 1), map[KEYBOARD := seqno])), None, NO_ATTEMPTS, Some(TWICE),
                 None, None)
  }

  /** The job that records the other seq. */
  function Recording(cfg: Config, seqno: Seq): DeciderState {
    Idle(cfg, seqno).(job := Some(JobState([], [], Record(None, map[KEYBOARD := 3 - seqno]))))
  }

  lemma OtherSeqIsPending(cfg: Config, seqno: Seq, now: Time)
    requires cfg.Valid() && cfg.id != "other" && (seqno == 1 || seqno == 2)
    ensures Idle(cfg, seqno).PendingAssignments(now) == [PendingAssignment(Listed(3 - seqno), AlreadyArrived)]
  {
    var m := Idle(cfg, seqno);
    var h, l, all := m.handled.value, m.limits, TWICE.assignments;
    var first := [Listed(1)];
    assert all[..|all| - 1] == first && first[..|first| - 1] == [];
    assert PendingOf(cfg, h, l, now, TWICE, first)
        == if seqno == 1 then [] else [PendingAssignment(Listed(1), AlreadyArrived)];
    assert PendingOf(cfg, h, l, now, TWICE, all)
        == PendingOf(cfg, h, l, now, TWICE, first)
           + if seqno == 2 then [] else [PendingAssignment(Listed(2), AlreadyArrived)];
  }

  lemma JobOfArrived(seqno: Seq)
    ensures GiveAwayJob([PendingAssignment(Listed(seqno), AlreadyArrived)])
         == Some(JobState([], [], Record(None, map[KEYBOARD := seqno])))
  {
    var p := PendingAssignment(Listed(seqno), AlreadyArrived);
    assert [p][..0] == [];
    assert RecordedSeqs([p]) == map[KEYBOARD := seqno] && KEYBOARD in RecordedSeqs([p]);
    assert GiveAwayTasks([p]) == [];
  }

  lemma ReconcilesTheOther(m: DeciderState, cfg: Config, seqno: Seq, now: Time)
    requires cfg.Valid() && cfg.id != "other" && (seqno == 1 || seqno == 2) && m == Idle(cfg, seqno)
    ensures m.Usable() && m.Reconcile(now) == Recording(cfg, seqno).job
  {
    OtherSeqIsPending(cfg, seqno, now);
    JobOfArrived(3 - seqno);
    assert !m.ActivationEdge(TWICE) && !m.DeactivationEdge(TWICE);
  }

  lemma BuildsTheOther(cfg: Config, seqno: Seq, now: Time)
    requires cfg.Valid() && cfg.id != "other" && (seqno == 1 || seqno == 2)
    ensures Idle(cfg, seqno).Usable()
    ensures Idle(cfg, seqno).TakeTurn(now) == Turn(Recording(cfg, seqno), [], false)
  {
    var m := Idle(cfg, seqno);
    ReconcilesTheOther(m, cfg, seqno, now);
    assert m.job.None? && !m.ClaimDue(now);
  }

  lemma RecordsTheOther(cfg: Config, seqno: Seq, now: Time)
    requires cfg.Valid() && cfg.id != "other" && (seqno == 1 || seqno == 2)
    ensures Recording(cfg, seqno).Usable()
    ensures Recording(cfg, seqno).TakeTurn(now).m == Idle(cfg, 3 - seqno)
    ensures !Recording(cfg, seqno).TakeTurn(now).stop
  {
    var m := Recording(cfg, seqno);
    var j := m.UpdatedJob(now);
    assert j.record.seqs == m.job.value.record.seqs;
    assert j.assignments == [] && j.commands == [];
    assert m.handled.value.Add(j.record) == Idle(cfg, 3 - seqno).handled.value;
  }

  /** n turns of the loop, none of them its last. */
  ghost predicate GoesOn(m: DeciderState, now: Time, n: nat)
    decreases n
  {
    n > 0 ==> m.Usable() && !m.TakeTurn(now).stop && GoesOn(m.TakeTurn(now).m, now, n - 1)
  }

  /** A host shown such a state, not its assignee, loops forever: no turn is the last. */
  lemma {:induction false} NeverEnds(cfg: Config, now: Time, n: nat)
    requires cfg.Valid() && cfg.id != "other"
    ensures GoesOn(Idle(cfg, 1), now, n) && GoesOn(Idle(cfg, 2), now, n)
    decreases n
  {
    if n > 1 {
      NeverEnds(cfg, now, n - 2);
    }
    BuildsTheOther(cfg, 1, now);
    BuildsTheOther(cfg, 2, now);
    RecordsTheOther(cfg, 1, now);
    RecordsTheOther(cfg, 2, now);
  }
}
