/** The decider as a value: each observation, at its time, gives the next state, what is decided
    and when to call again. */
module Deciding {
  import opened Options
  import opened State
  import opened Policy
  import opened RateLimiting
  import opened Jobs

  ghost predicate ValidKeys(seqs: map<AssignmentKey, Seq>) {
    forall key {:trigger key.Valid()} | key in seqs :: key.Valid()
  }

  /** What the server guarantees of a state: every key valid and listed once. */
  ghost predicate ValidState(s: ServerState) {
    && DistinctKeys(s.assignments)
    && forall a {:trigger a.Key().Valid()} | a in s.assignments :: a.Key().Valid()
  }

  /** The handled record: the ownership last acted on, and a seq for each key dealt with. */
  datatype Handled = Handled(ownership: Ownership, seqs: map<AssignmentKey, Seq>) {
    predicate Has(key: AssignmentKey, s: Seq) {
      key in seqs && seqs[key] == s
    }

    function Add(r: Record): Handled {
      Handled(if r.ownership.Some? then r.ownership.value else ownership, seqs + r.seqs)
    }

    function Persisted(): AgentState
      requires ValidKeys(seqs)
    {
      PrintsApart();
      AgentState(ownership.owner, ownership.activation, map key | key in seqs :: key.ToString() := seqs[key])
    }
  }

  lemma PrintsApart()
    ensures forall a: AssignmentKey, b: AssignmentKey
              | a.Valid() && b.Valid() && a.ToString() == b.ToString() :: a == b
  {
    forall a: AssignmentKey, b: AssignmentKey | a.Valid() && b.Valid() && a.ToString() == b.ToString()
      ensures a == b
    {
      PrintInjective(a, b);
    }
  }

  /** The stored seqs under their parsed keys. */
  function ParsedSeqs(stored: map<string, Seq>): map<AssignmentKey, Seq>
    requires forall s {:trigger ParseAssignmentKey(s)} | s in stored :: ParseAssignmentKey(s).Some?
  {
    var keys := set s | s in stored :: ParseAssignmentKey(s).value;
    map key | key in keys && key.ToString() in stored :: stored[key.ToString()]
  }

  /** The record agent.json holds; None when one of its keys does not parse. */
  function Restored(rec: AgentState): Option<Handled> {
    if exists s {:trigger ParseAssignmentKey(s)} | s in rec.handledSeqs :: ParseAssignmentKey(s).None? then None
    else Some(Handled(Ownership(rec.handledOwner, rec.handledActivation), ParsedSeqs(rec.handledSeqs)))
  }

  datatype Observation =
    | Nothing
    | Attach
    | Seen(state: ServerState)
    | Ran(outcomes: seq<Result>)
    | GaveAway(results: map<AssignmentKey, Result>)

  ghost predicate ValidObservation(o: Observation) {
    o.Seen? ==> ValidState(o.state)
  }

  /** How a pending assignment is disposed of. */
  datatype Verdict = GiveNow | AlreadyArrived | NotLive | RateLimited(until: Time)

  datatype PendingAssignment = PendingAssignment(assignment: Assignment, verdict: Verdict)

  /** Someone else's assignment, at a seq not handled yet. */
  predicate Unhandled(me: HostId, h: Handled, a: Assignment) {
    a.assignee != me && !h.Has(a.Key(), a.seqno)
  }

  function Assess(cfg: Config, l: Limits, now: Time, s: ServerState, a: Assignment): Verdict {
    if a.arrived then AlreadyArrived
    else if !s.IsLive(a.assignee) then NotLive
    else match l.LimitedUntil(cfg, now, a.Key())
      case Some(until) => RateLimited(until)
      case None => GiveNow
  }

  function PendingOf(cfg: Config, h: Handled, l: Limits, now: Time, s: ServerState, assignments: seq<Assignment>)
    : seq<PendingAssignment>
  {
    if assignments == [] then []
    else
      var a := assignments[|assignments| - 1];
      PendingOf(cfg, h, l, now, s, assignments[..|assignments| - 1])
      + if Unhandled(cfg.id, h, a) then [PendingAssignment(a, Assess(cfg, l, now, s, a))] else []
  }

  /** The built-in takes exist in activation jobs alone, and carry their number; any other argv is itself. */
  function CommandOf(argv: seq<string>, activating: bool, activation: int): Command
    requires argv != []
  {
    if activating && argv[0] == TAKE_SCREEN then Command([], activation, 0)
    else if activating && argv[0] == TAKE_HID then Command([], 0, activation)
    else Command(argv, 0, 0)
  }

  /** The flag's commands, whose end puts the state's owner and number on record. */
  function OwnershipChangeJob(s: ServerState, argvs: seq<seq<string>>, activating: bool): JobState
    requires forall i | 0 <= i < |argvs| :: argvs[i] != []
  {
    JobState(seq(|argvs|, i requires 0 <= i < |argvs| =>
               CommandTask(FRESH, CommandOf(argvs[i], activating, s.activation))),
             [],
             Record(Some(Ownership(s.owner, s.activation)), map[]))
  }

  function GiveAwayTasks(ps: seq<PendingAssignment>): seq<AssignmentTask> {
    if ps == [] then []
    else
      var p := ps[|ps| - 1];
      GiveAwayTasks(ps[..|ps| - 1])
      + if p.verdict.GiveNow? then [AssignmentTask(FRESH, p.assignment, false, 0)] else []
  }

  function RecordedSeqs(ps: seq<PendingAssignment>): map<AssignmentKey, Seq> {
    if ps == [] then map[]
    else
      var p := ps[|ps| - 1];
      var before := RecordedSeqs(ps[..|ps| - 1]);
      if p.verdict.GiveNow? || p.verdict.AlreadyArrived? then before[p.assignment.Key() := p.assignment.seqno]
      else before
  }

  function GiveAwayJob(ps: seq<PendingAssignment>): Option<JobState> {
    var seqs := RecordedSeqs(ps);
    if seqs == map[] then None else Some(JobState([], GiveAwayTasks(ps), Record(None, seqs)))
  }

  /** The earlier of two times, None counting for nothing. */
  function Earlier(a: Option<Time>, b: Option<Time>): Option<Time> {
    if a.None? then b else if b.None? || a.value <= b.value then a else b
  }

  function LimitLifts(ps: seq<PendingAssignment>): Option<Time> {
    if ps == [] then None
    else
      var p := ps[|ps| - 1];
      var first := LimitLifts(ps[..|ps| - 1]);
      if p.verdict.RateLimited? then Earlier(first, Some(p.verdict.until)) else first
  }

  /** The earliest of the times after now. */
  function EarliestAfter(now: Time, times: seq<Time>): Option<Time> {
    if times == [] then None
    else
      var first := EarliestAfter(now, times[..|times| - 1]);
      var t := times[|times| - 1];
      if t > now then Earlier(first, Some(t)) else first
  }

  function AsSeq(t: Option<Time>): seq<Time> {
    if t.None? then [] else [t.value]
  }

  /** One turn of advanceTime's loop: the new state, what it decides, and whether it was the last. */
  datatype Turn = Turn(m: DeciderState, decisions: seq<Decision>, stop: bool)

  datatype DeciderState = DeciderState(cfg: Config, handled: Option<Handled>, job: Option<JobState>,
                                       limits: Limits, latest: Option<ServerState>,
                                       lastAttach: Option<Time>, claimedAttach: Option<Time>)
  {
    /** What every step of the decider relies on. */
    ghost predicate Usable() {
      && cfg.Valid()
      && (job.Some? || latest.Some? ==> handled.Some?)
      && (handled.Some? ==> ValidKeys(handled.value.seqs))
      && (job.Some? ==> ValidKeys(job.value.record.seqs))
    }

    /** Usable, its newest state as the server guarantees it. */
    ghost predicate WellFormed() {
      Usable() && (latest.Some? ==> ValidState(latest.value))
    }

    function ClaimAt(): Option<Time> {
      if lastAttach == claimedAttach || lastAttach.None? then None else Some(lastAttach.value + cfg.settle)
    }

    predicate ClaimDue(now: Time) {
      ClaimAt().Some? && ClaimAt().value <= now
    }

    function PendingAssignments(now: Time): seq<PendingAssignment>
      requires handled.Some? && latest.Some?
    {
      PendingOf(cfg, handled.value, limits, now, latest.value, latest.value.assignments)
    }

    /** s names this host, and not under the ownership on record. */
    predicate ActivationEdge(s: ServerState)
      requires handled.Some?
    {
      var last := handled.value.ownership;
      s.owner == cfg.id && (last.owner != cfg.id || s.activation != last.activation)
    }

    predicate DeactivationEdge(s: ServerState)
      requires handled.Some?
    {
      s.owner != cfg.id && s.owner != "" && handled.value.ownership.owner == cfg.id
    }

    /** What an idle decider starts: an activation, else a deactivation, else give-aways. */
    function Reconcile(now: Time): Option<JobState>
      requires Usable() && latest.Some?
    {
      var s := latest.value;
      if ActivationEdge(s) then Some(OwnershipChangeJob(s, cfg.onActivation, true))
      else if DeactivationEdge(s) then Some(OwnershipChangeJob(s, cfg.onDeactivation, false))
      else GiveAwayJob(PendingAssignments(now))
    }

    /** The job after the newest state had its say and overdue arrivals failed. */
    function UpdatedJob(now: Time): JobState
      requires job.Some?
    {
      var j := if latest.Some? then job.value.ApplyState(latest.value, cfg.id) else job.value;
      j.Expire(now, cfg.arrivalWindow)
    }

    /** No job any more: its record joins the handled one, and the limiter hears of each try. */
    function Ended(now: Time, j: JobState): DeciderState
      requires handled.Some?
    {
      this.(job := None, handled := Some(handled.value.Add(j.record)),
            limits := limits.CountAll(cfg, now, TriedKeys(j.assignments)))
    }

    function AdvanceJob(now: Time): (DeciderState, seq<Decision>)
      requires Usable() && job.Some?
    {
      var j := UpdatedJob(now);
      if j.Busy() then (this.(job := Some(j)), [])
      else if !j.Settled(cfg.MaxAttempts()) then
        var d := j.DueDecision(now, cfg.MaxAttempts(), cfg.retrySpacing);
        (this.(job := Some(j.IssueTasks(now, cfg.MaxAttempts(), cfg.retrySpacing))), if d.Some? then [d.value] else [])
      else
        var m := Ended(now, j);
        (m, [NOTHING.(save := Some(m.handled.value.Persisted()), notify := j.NotifyFor(cfg.id))])
    }

    function TakeTurn(now: Time): Turn
      requires Usable()
    {
      if job.Some? then
        var (m, ds) := AdvanceJob(now);
        Turn(m, ds, m.job.Some?)
      else if ClaimDue(now) then
        Turn(this.(claimedAttach := lastAttach), [NOTHING.(claim := Some(cfg.id))], false)
      else if latest.Some? then
        var j := Reconcile(now);
        Turn(this.(job := j), [], j.None?)
      else Turn(this, [], true)
    }

    /** How many assignments of the newest state are left to handle. */
    ghost function UnhandledCount(): nat {
      if latest.Some? && handled.Some? then CountUnhandled(cfg.id, handled.value, latest.value.assignments) else 0
    }

    ghost function OpenEdge(): nat {
      if latest.Some? && handled.Some? && (ActivationEdge(latest.value) || DeactivationEdge(latest.value)) then 1 else 0
    }

    /** The job is what the newest state calls for: it was built at now. */
    ghost predicate JustBuilt(now: Time)
      requires WellFormed()
    {
      job.Some? && latest.Some? && Reconcile(now) == job
    }

    /** 1 when there is a job, and not just built. */
    ghost function OldJob(now: Time): nat
      requires WellFormed()
    {
      if job.Some? && !JustBuilt(now) then 1 else 0
    }

    ghost function DueClaim(now: Time): nat {
      if ClaimDue(now) then 1 else 0
    }

    ghost function JobToBuild(): nat {
      if job.None? then 1 else 0
    }

    /** Turns, until one of them stops. */
    function AdvanceTime(now: Time): (DeciderState, seq<Decision>)
      requires WellFormed()
      decreases OldJob(now), OpenEdge(), UnhandledCount(), DueClaim(now), JobToBuild()
    {
      var t := TakeTurn(now);
      TurnKeepsWellFormed(this, now);
      if t.stop then (t.m, t.decisions)
      else
        TurnDecreases(this, now);
        var (m, ds) := t.m.AdvanceTime(now);
        (m, t.decisions + ds)
    }

    /** A host without a record treats all a state shows as dealt with. */
    function Adopted(s: ServerState): Handled {
      Handled(Ownership(s.owner, s.activation), SeqsOf(s.assignments))
    }

    function Observe(now: Time, o: Observation): (DeciderState, seq<Decision>)
      requires WellFormed() && ValidObservation(o)
    {
      match o
      case Nothing => (this, [])
      case Attach => (this.(lastAttach := Some(now)), [])
      case Seen(s) =>
        if handled.None? then
          SeqsOfValid(s.assignments);
          (this.(handled := Some(Adopted(s))), [NOTHING.(save := Some(Adopted(s).Persisted()))])
        else (this.(latest := Some(s)), [])
      case Ran(results) =>
        (if job.Some? then this.(job := Some(job.value.ReportRun(results))) else this, [])
      case GaveAway(results) =>
        (if job.Some? then this.(job := Some(job.value.ReportGiveAway(now, results))) else this, [])
    }

    function WakeAt(now: Time): Option<Time>
      requires WellFormed()
    {
      EarliestAfter(now, Candidates(now))
    }

    function Candidates(now: Time): seq<Time>
      requires WellFormed()
    {
      AsSeq(ClaimAt())
      + if job.Some? then job.value.Deadlines(cfg.MaxAttempts(), cfg.retrySpacing, cfg.arrivalWindow)
        else if latest.Some? then AsSeq(LimitLifts(PendingAssignments(now)))
        else []
    }

    /** The state and the decisions after observing o at now. */
    function Decide(now: Time, o: Observation): (r: (DeciderState, seq<Decision>))
      requires WellFormed() && ValidObservation(o)
    {
      var (m, ds) := Observe(now, o);
      ObserveKeepsWellFormed(this, now, o);
      var (m', ds') := m.AdvanceTime(now);
      (m', ds + ds')
    }
  }

  /** A decider before its first observation. */
  function Started(cfg: Config, handled: Option<Handled>): DeciderState {
    DeciderState(cfg, handled, None, NO_ATTEMPTS, None, None, None)
  }

  /** Key to seq, a later entry overriding an earlier one. */
  function SeqsOf(assignments: seq<Assignment>): map<AssignmentKey, Seq> {
    if assignments == [] then map[]
    else
      var a := assignments[|assignments| - 1];
      SeqsOf(assignments[..|assignments| - 1])[a.Key() := a.seqno]
  }

  lemma {:induction false} SeqsOfValid(assignments: seq<Assignment>)
    requires forall a {:trigger a.Key().Valid()} | a in assignments :: a.Key().Valid()
    ensures ValidKeys(SeqsOf(assignments))
  {
    if assignments != [] {
      SeqsOfValid(assignments[..|assignments| - 1]);
    }
  }

  ghost function CountUnhandled(me: HostId, h: Handled, assignments: seq<Assignment>): nat {
    if assignments == [] then 0
    else
      CountUnhandled(me, h, assignments[..|assignments| - 1])
      + if Unhandled(me, h, assignments[|assignments| - 1]) then 1 else 0
  }

  // What is pending, as a set of facts rather than a recursion.

  lemma {:induction false} PendingFacts(cfg: Config, h: Handled, l: Limits, now: Time, s: ServerState,
                                        assignments: seq<Assignment>)
    ensures forall p | p in PendingOf(cfg, h, l, now, s, assignments) ::
              && p.assignment in assignments && Unhandled(cfg.id, h, p.assignment)
              && p.verdict == Assess(cfg, l, now, s, p.assignment)
    ensures forall a | a in assignments && Unhandled(cfg.id, h, a) ::
              PendingAssignment(a, Assess(cfg, l, now, s, a)) in PendingOf(cfg, h, l, now, s, assignments)
    ensures DistinctKeys(assignments) ==> PendingDistinct(PendingOf(cfg, h, l, now, s, assignments))
  {
    if assignments != [] {
      var init := assignments[..|assignments| - 1];
      PendingFacts(cfg, h, l, now, s, init);
      assert assignments == init + [assignments[|assignments| - 1]];
      if DistinctKeys(assignments) {
        assert forall a | a in init :: a.Key() != assignments[|assignments| - 1].Key();
      }
    }
  }

  ghost predicate PendingDistinct(ps: seq<PendingAssignment>) {
    forall i, j | 0 <= i < j < |ps| :: ps[i].assignment.Key() != ps[j].assignment.Key()
  }

  lemma {:induction false} RecordedFacts(ps: seq<PendingAssignment>)
    ensures forall key | key in RecordedSeqs(ps) ::
              exists p :: p in ps && (p.verdict.GiveNow? || p.verdict.AlreadyArrived?)
                          && p.assignment.Key() == key && p.assignment.seqno == RecordedSeqs(ps)[key]
    ensures forall p | p in ps && (p.verdict.GiveNow? || p.verdict.AlreadyArrived?) ::
              p.assignment.Key() in RecordedSeqs(ps)
    ensures PendingDistinct(ps) ==>
              forall p | p in ps && (p.verdict.GiveNow? || p.verdict.AlreadyArrived?) ::
                RecordedSeqs(ps)[p.assignment.Key()] == p.assignment.seqno
  {
    if ps != [] {
      var init := ps[..|ps| - 1];
      RecordedFacts(init);
      assert ps == init + [ps[|ps| - 1]];
      if PendingDistinct(ps) {
        assert forall p | p in init :: p.assignment.Key() != ps[|ps| - 1].assignment.Key();
      }
    }
  }

  ghost predicate DistinctTasks(tasks: seq<AssignmentTask>) {
    forall i, j | 0 <= i < j < |tasks| :: tasks[i].Key() != tasks[j].Key()
  }

  lemma {:induction false} TaskFacts(ps: seq<PendingAssignment>)
    ensures forall t | t in GiveAwayTasks(ps) ::
              t == AssignmentTask(FRESH, t.assignment, false, 0) && PendingAssignment(t.assignment, GiveNow) in ps
    ensures forall p | p in ps && p.verdict.GiveNow? ::
              AssignmentTask(FRESH, p.assignment, false, 0) in GiveAwayTasks(ps)
    ensures PendingDistinct(ps) ==> DistinctTasks(GiveAwayTasks(ps))
  {
    if ps != [] {
      var init := ps[..|ps| - 1];
      TaskFacts(init);
      assert ps == init + [ps[|ps| - 1]];
      if PendingDistinct(ps) {
        assert forall p | p in init :: p.assignment.Key() != ps[|ps| - 1].assignment.Key();
      }
    }
  }

  /** What PendingFacts, RecordedFacts and TaskFacts say of a decider about to reconcile. */
  lemma ReconcileFacts(m: DeciderState, now: Time)
    requires m.WellFormed() && m.latest.Some?
    ensures var ps := m.PendingAssignments(now);
            && (forall p | p in ps ::
                  && p.assignment in m.latest.value.assignments && Unhandled(m.cfg.id, m.handled.value, p.assignment)
                  && p.verdict == Assess(m.cfg, m.limits, now, m.latest.value, p.assignment))
            && (forall a | a in m.latest.value.assignments && Unhandled(m.cfg.id, m.handled.value, a) ::
                  PendingAssignment(a, Assess(m.cfg, m.limits, now, m.latest.value, a)) in ps)
            && PendingDistinct(ps)
            && (forall p | p in ps && (p.verdict.GiveNow? || p.verdict.AlreadyArrived?) ::
                  p.assignment.Key() in RecordedSeqs(ps)
                  && RecordedSeqs(ps)[p.assignment.Key()] == p.assignment.seqno)
            && (forall key | key in RecordedSeqs(ps) ::
                  exists p :: p in ps && (p.verdict.GiveNow? || p.verdict.AlreadyArrived?)
                              && p.assignment.Key() == key && p.assignment.seqno == RecordedSeqs(ps)[key])
            && (forall t | t in GiveAwayTasks(ps) ::
                  t == AssignmentTask(FRESH, t.assignment, false, 0)
                  && PendingAssignment(t.assignment, GiveNow) in ps)
            && (forall p | p in ps && p.verdict.GiveNow? ::
                  AssignmentTask(FRESH, p.assignment, false, 0) in GiveAwayTasks(ps))
            && DistinctTasks(GiveAwayTasks(ps))
            && ValidKeys(RecordedSeqs(ps))
  {
    PendingFacts(m.cfg, m.handled.value, m.limits, now, m.latest.value, m.latest.value.assignments);
    RecordedFacts(m.PendingAssignments(now));
    TaskFacts(m.PendingAssignments(now));
  }

  lemma SameKeySame(assignments: seq<Assignment>, a: Assignment, b: Assignment)
    requires DistinctKeys(assignments) && a in assignments && b in assignments && a.Key() == b.Key()
    ensures a == b
  {
  }

  lemma FreshTaskStays(m: DeciderState, now: Time, t: AssignmentTask)
    requires m.WellFormed() && m.latest.Some? && t in GiveAwayTasks(m.PendingAssignments(now))
    ensures var s, current := m.latest.value, ByKey(m.latest.value.assignments);
            && t.DropExpired(s, current).MarkArrived(current).Expire(now, m.cfg.arrivalWindow) == t
            && !t.StopsNotLive(s, current)
  {
    ReconcileFacts(m, now);
    ByKeyMembers(m.latest.value.assignments);
    assert PendingAssignment(t.assignment, GiveNow) in m.PendingAssignments(now);
  }

  /** A job just built from the newest state is up to date with it. */
  lemma FreshJobIsUpToDate(m: DeciderState, now: Time)
    requires m.WellFormed() && m.JustBuilt(now)
    ensures m.UpdatedJob(now) == m.job.value
  {
    var s, j, j' := m.latest.value, m.job.value, m.UpdatedJob(now);
    if !m.ActivationEdge(s) && !m.DeactivationEdge(s) {
      var current := ByKey(s.assignments);
      forall i | 0 <= i < |j.assignments|
        ensures j'.assignments[i] == j.assignments[i] && !j.assignments[i].StopsNotLive(s, current)
      {
        FreshTaskStays(m, now, j.assignments[i]);
      }
      assert NotLiveKeys(j.assignments, s, current) == {};
      assert j'.commands == j.commands && j'.assignments == j.assignments;
    }
    assert j'.record.seqs == j.record.seqs;
  }

  lemma {:induction false} CountUnhandledMonotone(me: HostId, h: Handled, h': Handled, assignments: seq<Assignment>)
    requires forall a | a in assignments && Unhandled(me, h', a) :: Unhandled(me, h, a)
    ensures CountUnhandled(me, h', assignments) <= CountUnhandled(me, h, assignments)
    ensures (exists a :: a in assignments && Unhandled(me, h, a) && !Unhandled(me, h', a)) ==>
              CountUnhandled(me, h', assignments) < CountUnhandled(me, h, assignments)
  {
    if assignments != [] {
      var init := assignments[..|assignments| - 1];
      assert assignments == init + [assignments[|assignments| - 1]];
      CountUnhandledMonotone(me, h, h', init);
    }
  }

  /** What a reconciled give-away job records was unhandled. */
  lemma RecordingHandles(m: DeciderState, now: Time)
    requires m.WellFormed() && m.latest.Some?
    ensures var h, seqs := m.handled.value, RecordedSeqs(m.PendingAssignments(now));
            var h' := h.Add(Record(None, seqs));
            && (forall a | a in m.latest.value.assignments ::
                  Unhandled(m.cfg.id, h', a) ==> Unhandled(m.cfg.id, h, a))
            && (seqs != map[] ==> exists a :: a in m.latest.value.assignments && Unhandled(m.cfg.id, h, a)
                                              && !Unhandled(m.cfg.id, h', a))
  {
    ReconcileFacts(m, now);
    var s, ps, h := m.latest.value, m.PendingAssignments(now), m.handled.value;
    var seqs := RecordedSeqs(ps);
    var h' := h.Add(Record(None, seqs));
    forall a | a in s.assignments
      ensures Unhandled(m.cfg.id, h', a) ==> Unhandled(m.cfg.id, h, a)
    {
      if a.Key() in seqs {
        var p :| p in ps && p.assignment.Key() == a.Key();
        SameKeySame(s.assignments, a, p.assignment);
      }
    }
    if seqs != map[] {
      var key :| key in seqs;
      var p :| p in ps && p.assignment.Key() == key && p.assignment.seqno == seqs[key];
      assert p.assignment in s.assignments && Unhandled(m.cfg.id, h, p.assignment);
      assert !Unhandled(m.cfg.id, h', p.assignment);
    }
  }

  /** A job just built that ends at once closes the ownership edge or handles an assignment. */
  lemma FreshJobEndsForward(m: DeciderState, now: Time)
    requires m.WellFormed() && m.JustBuilt(now)
    requires m.AdvanceJob(now).0.job.None?
    ensures var m' := m.AdvanceJob(now).0;
            m'.OpenEdge() < m.OpenEdge() || (m'.OpenEdge() == m.OpenEdge() && m'.UnhandledCount() < m.UnhandledCount())
  {
    FreshJobIsUpToDate(m, now);
    var s, j, h := m.latest.value, m.job.value, m.handled.value;
    if !m.ActivationEdge(s) && !m.DeactivationEdge(s) {
      RecordingHandles(m, now);
      assert h.Add(j.record) == h.Add(Record(None, RecordedSeqs(m.PendingAssignments(now))));
      CountUnhandledMonotone(m.cfg.id, h, h.Add(j.record), s.assignments);
    }
  }

  /** Every turn but the last brings the loop closer to its end. */
  lemma TurnDecreases(m: DeciderState, now: Time)
    requires m.WellFormed() && !m.TakeTurn(now).stop && m.TakeTurn(now).m.WellFormed()
    ensures var m' := m.TakeTurn(now).m;
            || m'.OldJob(now) < m.OldJob(now)
            || (m'.OldJob(now) == m.OldJob(now)
                && (|| m'.OpenEdge() < m.OpenEdge()
                    || (m'.OpenEdge() == m.OpenEdge()
                        && (|| m'.UnhandledCount() < m.UnhandledCount()
                            || (m'.UnhandledCount() == m.UnhandledCount()
                                && (|| m'.DueClaim(now) < m.DueClaim(now)
                                    || (m'.DueClaim(now) == m.DueClaim(now) && m'.JobToBuild() < m.JobToBuild())))))))
  {
    if m.job.Some? && m.OldJob(now) == 0 {
      FreshJobEndsForward(m, now);
    }
  }

  lemma TurnKeepsWellFormed(m: DeciderState, now: Time)
    requires m.WellFormed()
    ensures m.TakeTurn(now).m.WellFormed()
  {
    if m.job.None? && m.latest.Some? && m.Reconcile(now).Some? {
      ReconcileFacts(m, now);
    }
  }

  /** AdvanceTime, one turn at a time. */
  lemma AdvanceTimeUnfolds(m: DeciderState, now: Time)
    requires m.WellFormed()
    ensures var t := m.TakeTurn(now);
            && t.m.WellFormed()
            && m.AdvanceTime(now) == if t.stop then (t.m, t.decisions)
                                     else (t.m.AdvanceTime(now).0, t.decisions + t.m.AdvanceTime(now).1)
  {
    TurnKeepsWellFormed(m, now);
  }

  lemma ObserveKeepsWellFormed(m: DeciderState, now: Time, o: Observation)
    requires m.WellFormed() && ValidObservation(o)
    ensures m.Observe(now, o).0.WellFormed()
  {
    if o.Seen? {
      SeqsOfValid(o.state.assignments);
    }
  }
}
