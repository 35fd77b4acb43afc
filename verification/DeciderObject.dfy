/** The decider as the object the agent's loop owns: each method moves its fields as the
    specification moves the state. */
module DeciderObject {
  import opened Options
  import opened State
  import opened Policy
  import opened RateLimiting
  import opened Jobs
  import opened Deciding

  class Decider {
    const cfg: Config
    var handled: Option<Handled>
    var job: Job?
    const limiter: RateLimiter
    var latest: Option<ServerState>
    var lastAttach: Option<Time>
    var claimedAttach: Option<Time>

    function Value(): DeciderState
      reads this, limiter, job
    {
      DeciderState(cfg, handled, if job == null then None else Some(job.Value()), limiter.Value(), latest,
                   lastAttach, claimedAttach)
    }

    ghost predicate Valid()
      reads this, limiter, job
    {
      limiter.cfg == cfg && Value().WellFormed()
    }

    constructor (cfg: Config, handled: Option<Handled>)
      requires cfg.Valid() && (handled.Some? ==> ValidKeys(handled.value.seqs))
      ensures Valid() && fresh(limiter) && job == null
      ensures Value() == Started(cfg, handled)
    {
      this.cfg := cfg;
      this.handled := handled;
      job := null;
      limiter := new RateLimiter(cfg);
      latest, lastAttach, claimedAttach := None, None, None;
    }

    /** Null when some stored key is malformed. */
    static method FromRecord(cfg: Config, rec: Option<AgentState>) returns (m: Decider?)
      requires cfg.Valid()
      ensures m == null <==> rec.Some? && Restored(rec.value).None?
      ensures m != null ==> fresh(m) && fresh(m.limiter) && m.Valid() && m.job == null
      ensures m != null ==> m.Value() == Started(cfg, if rec.None? then None else Restored(rec.value))
    {
      if rec.None? {
        m := new Decider(cfg, None);
        return;
      }
      var seqs := ParseSeqs(rec.value.handledSeqs);
      if seqs.None? {
        return null;
      }
      RestoredIsParsed(rec.value, seqs.value);
      m := new Decider(cfg, Some(Handled(Ownership(rec.value.handledOwner, rec.value.handledActivation), seqs.value)));
    }

    /** The keys parsed back; None when one does not parse. */
    static method ParseSeqs(stored: map<string, Seq>) returns (r: Option<map<AssignmentKey, Seq>>)
      ensures r.None? <==> exists s {:trigger ParseAssignmentKey(s)} :: s in stored && ParseAssignmentKey(s).None?
      ensures r.Some? ==> IsParsed(stored, r.value)
    {
      var seqs: map<AssignmentKey, Seq> := map[];
      var left := stored.Keys;
      while left != {}
        invariant left <= stored.Keys
        invariant forall s {:trigger ParseAssignmentKey(s)} | s in stored && s !in left ::
                    ParseAssignmentKey(s).Some? && ParseAssignmentKey(s).value in seqs
        invariant forall key | key in seqs ::
                    key.Valid() && key.ToString() in stored && seqs[key] == stored[key.ToString()]
        decreases |left|
      {
        var s :| s in left;
        var key := ParseAssignmentKey(s);
        if key.None? {
          return None;
        }
        PrintParsed(s);
        seqs := seqs[key.value := stored[s]];
        left := left - {s};
      }
      r := Some(seqs);
    }

    /** Takes in o, then advances: the decisions in order, and the next deadline. */
    method Decide(now: Time, o: Observation) returns (ds: seq<Decision>, wake: Option<Time>)
      requires Valid() && ValidObservation(o)
      modifies this, limiter, job
      ensures Valid()
      ensures (Value(), ds) == old(Value()).Decide(now, o)
      ensures wake == Value().WakeAt(now)
      ensures job == null || job == old(job) || fresh(job)
    {
      ObserveKeepsWellFormed(Value(), now, o);
      ds := [];
      match o {
        case Nothing =>
        case Attach => lastAttach := Some(now);
        case Seen(s) => ds := HandleState(s);
        case Ran(results) => HandleRan(results);
        case GaveAway(results) => HandleGaveAway(now, results);
      }
      assert (Value(), ds) == old(Value()).Observe(now, o);
      var more := AdvanceTime(now);
      ds := ds + more;
      wake := Value().WakeAt(now);
    }

    /** A first state becomes the record; every later one becomes the newest. */
    method HandleState(s: ServerState) returns (ds: seq<Decision>)
      requires Valid() && ValidState(s)
      modifies this
      ensures Valid() && job == old(job)
      ensures forall now :: (Value(), ds) == old(Value()).Observe(now, Seen(s))
    {
      if handled.None? {
        var seqs := map[];
        for i := 0 to |s.assignments|
          invariant seqs == SeqsOf(s.assignments[..i])
        {
          assert s.assignments[..i + 1][..i] == s.assignments[..i];
          seqs := seqs[s.assignments[i].Key() := s.assignments[i].seqno];
        }
        assert s.assignments[..|s.assignments|] == s.assignments;
        SeqsOfValid(s.assignments);
        handled := Some(Handled(Ownership(s.owner, s.activation), seqs));
        ds := [NOTHING.(save := Some(handled.value.Persisted()))];
      } else {
        latest := Some(s);
        ds := [];
      }
    }

    method HandleRan(results: seq<Result>)
      requires Valid()
      modifies job
      ensures Valid() && job == old(job)
      ensures forall now :: Value() == old(Value()).Observe(now, Ran(results)).0
    {
      if job != null {
        var _ := job.ReportRun(results);
      }
    }

    method HandleGaveAway(now: Time, results: map<AssignmentKey, Result>)
      requires Valid()
      modifies job
      ensures Valid() && job == old(job)
      ensures Value() == old(Value()).Observe(now, GaveAway(results)).0
    {
      if job != null {
        var _ := job.ReportGiveAway(now, results);
      }
    }

    /** Turn after turn. It ends since each turn that goes on lowers the measure. */
    method AdvanceTime(now: Time) returns (ds: seq<Decision>)
      requires Valid()
      modifies this, limiter, job
      ensures Valid()
      ensures (Value(), ds) == old(Value()).AdvanceTime(now)
      ensures job == null || job == old(job) || fresh(job)
    {
      ds := [];
      ghost var start, m := Value(), Value();
      assert ds + m.AdvanceTime(now).1 == m.AdvanceTime(now).1;
      var stop := false;
      while !stop
        invariant Valid() && Value() == m
        invariant job == null || job == old(job) || fresh(job)
        invariant start.AdvanceTime(now) == if stop then (m, ds) else (m.AdvanceTime(now).0, ds + m.AdvanceTime(now).1)
        decreases !stop, m.OldJob(now), m.OpenEdge(), m.UnhandledCount(), m.DueClaim(now), m.JobToBuild()
      {
        ghost var was, before := m, ds;
        AdvanceTimeUnfolds(was, now);
        var more;
        more, stop := TakeTurn(now);
        ds := ds + more;
        m := Value();
        if !stop {
          TurnDecreases(was, now);
          assert before + (more + m.AdvanceTime(now).1) == ds + m.AdvanceTime(now).1;
        }
      }
    }

    method TakeTurn(now: Time) returns (ds: seq<Decision>, stop: bool)
      requires Valid()
      modifies this, limiter, job
      ensures Valid()
      ensures Turn(Value(), ds, stop) == old(Value()).TakeTurn(now)
      ensures job == null || job == old(job) || fresh(job)
    {
      TurnKeepsWellFormed(Value(), now);
      if job != null {
        ds := AdvanceJob(now);
        stop := job != null;
      } else if Value().ClaimDue(now) {
        claimedAttach := lastAttach;
        ds, stop := [NOTHING.(claim := Some(cfg.id))], false;
      } else if latest.Some? {
        var j := Value().Reconcile(now);
        ds, stop := [], j.None?;
        if j.Some? {
          job := new Job(j.value);
        }
      } else {
        ds, stop := [], true;
      }
    }

    /** One turn with a job: nothing while a result is awaited, else an issue or the end. */
    method AdvanceJob(now: Time) returns (ds: seq<Decision>)
      requires Valid() && job != null
      modifies this, limiter, job
      ensures Valid()
      ensures (Value(), ds) == old(Value()).AdvanceJob(now)
      ensures job == null || job == old(job)
    {
      TurnKeepsWellFormed(Value(), now);
      ghost var m := Value();
      if latest.Some? {
        job.ApplyState(latest.value, cfg.id);
      }
      job.Expire(now, cfg.arrivalWindow);
      ghost var j := m.UpdatedJob(now);
      assert job.Value() == j;
      if job.Value().Busy() {
        return [];
      }
      if !job.Value().Settled(cfg.MaxAttempts()) {
        var d := job.Issue(now, cfg.MaxAttempts(), cfg.retrySpacing);
        return if d.Some? then [d.value] else [];
      }
      ds := EndJob(now);
    }

    /** Retires a settled job, and saves. */
    method EndJob(now: Time) returns (ds: seq<Decision>)
      requires Valid() && job != null && ValidKeys(handled.value.Add(job.record).seqs)
      modifies this, limiter
      ensures job == null && limiter.cfg == cfg
      ensures Value() == old(Value()).Ended(now, old(job.Value()))
      ensures ds == [NOTHING.(save := Some(Value().handled.value.Persisted()),
                              notify := old(job.Value()).NotifyFor(cfg.id))]
    {
      handled := Some(handled.value.Add(job.record));
      CountTried(now);
      var notify := job.Value().NotifyFor(cfg.id);
      job := null;
      ds := [NOTHING.(save := Some(handled.value.Persisted()), notify := notify)];
    }

    method CountTried(now: Time)
      requires job != null && limiter.cfg == cfg
      modifies limiter
      ensures limiter.Value() == old(limiter.Value()).CountAll(cfg, now, TriedKeys(job.assignments))
    {
      ghost var limits := limiter.Value();
      var tasks := job.assignments;
      for i := 0 to |tasks|
        invariant limiter.Value() == limits.CountAll(cfg, now, TriedKeys(tasks[..i]))
      {
        assert tasks[..i + 1][..i] == tasks[..i];
        ghost var keys, last := TriedKeys(tasks[..i]), [tasks[i].Key()];
        if tasks[i].triedToMove {
          assert TriedKeys(tasks[..i + 1]) == keys + last;
          assert (keys + last)[..|keys + last| - 1] == keys;
          limiter.Count(now, tasks[i].Key());
        } else {
          assert TriedKeys(tasks[..i + 1]) == keys;
        }
      }
      assert tasks[..|tasks|] == tasks;
    }
  }

  /** Each stored seq is under its parsed key, and nothing else is. */
  ghost predicate IsParsed(stored: map<string, Seq>, seqs: map<AssignmentKey, Seq>) {
    && (forall s {:trigger ParseAssignmentKey(s)} | s in stored ::
          ParseAssignmentKey(s).Some? && ParseAssignmentKey(s).value in seqs)
    && (forall key | key in seqs ::
          key.Valid() && key.ToString() in stored && seqs[key] == stored[key.ToString()])
  }

  lemma RestoredIsParsed(rec: AgentState, seqs: map<AssignmentKey, Seq>)
    requires IsParsed(rec.handledSeqs, seqs)
    ensures Restored(rec) == Some(Handled(Ownership(rec.handledOwner, rec.handledActivation), seqs))
  {
    var stored := rec.handledSeqs;
    assert Restored(rec).Some?;
    var parsed := ParsedSeqs(stored);
    forall key | key in seqs
      ensures key in parsed
    {
      ParsePrinted(key);
      assert key.ToString() in stored;
    }
    assert parsed.Keys == seqs.Keys;
    assert parsed == seqs;
  }
}
