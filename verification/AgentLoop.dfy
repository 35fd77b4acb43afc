/** The agent's loop, its channels and its worker, their steps interleaved in any order. */
module AgentLoop {
  import opened Options
  import opened State
  import opened Policy
  import opened Jobs
  import opened Deciding
  import opened DeciderInvariant
  import Runs
  import Working

  const DECISIONS_CAP := 4
  const RESULTS_CAP := 1

  /** The decision is for the worker. */
  predicate HasWork(d: Decision) {
    d.Issues() || d.notify
  }

  function Work(ds: seq<Decision>): seq<Decision> {
    if ds == [] then []
    else
      var d := ds[|ds| - 1];
      Work(ds[..|ds| - 1]) + if HasWork(d) then [d] else []
  }

  /** What the worker is on: the rest of one decision, or a result it is about to post. */
  datatype WorkerPhase =
    | Idle
    | Carrying(run: seq<Command>, giveAway: seq<Assignment>, notify: bool)
    | Posting(o: Observation, giveAway: seq<Assignment>, notify: bool)

  /** toSend is what the loop has yet to send of what it last decided: it reads nothing before. */
  datatype Agent = Agent(m: DeciderState, clock: Time, toSend: seq<Decision>, decisions: seq<Decision>,
                         worker: WorkerPhase, results: seq<Observation>)
  {
    function Decided(now: Time, o: Observation): Agent
      requires m.WellFormed() && ValidObservation(o)
    {
      var (m', ds) := m.Decide(now, o);
      this.(m := m', clock := now, toSend := Work(ds))
    }
  }

  datatype Event =
    | Observed(now: Time, o: Observation)
    | ResultRead(now: Time)
    | Sent
    | Taken
    | CommandsEnded(outcomes: seq<Result>)
    | WritesEnded(writes: map<AssignmentKey, Result>)
    | Posted
    | Notified

  ghost predicate Enabled(a: Agent, e: Event) {
    match e
    case Observed(now, o) =>
      a.toSend == [] && a.clock <= now && a.m.WellFormed() && ValidObservation(o) && !o.Ran? && !o.GaveAway?
    case ResultRead(now) =>
      a.toSend == [] && a.results != [] && a.clock <= now && a.m.WellFormed() && ValidObservation(a.results[0])
    case Sent => a.toSend != [] && |a.decisions| < DECISIONS_CAP
    case Taken => a.worker.Idle? && a.decisions != []
    case CommandsEnded(outcomes) => a.worker.Carrying? && a.worker.run != [] && |outcomes| == |a.worker.run|
    case WritesEnded(writes) =>
      && a.worker.Carrying? && a.worker.run == [] && a.worker.giveAway != []
      && writes.Keys == Working.KeysOf(a.worker.giveAway)
    case Posted => a.worker.Posting? && |a.results| < RESULTS_CAP
    case Notified => a.worker.Carrying? && a.worker.run == [] && a.worker.giveAway == []
  }

  function Next(a: Agent, e: Event): Agent
    requires Enabled(a, e)
  {
    match e
    case Observed(now, o) => a.Decided(now, o)
    case ResultRead(now) => a.(results := a.results[1..]).Decided(now, a.results[0])
    case Sent => a.(toSend := a.toSend[1..], decisions := a.decisions + [a.toSend[0]])
    case Taken =>
      var d := a.decisions[0];
      a.(decisions := a.decisions[1..], worker := Carrying(d.run, d.giveAway, d.notify))
    case CommandsEnded(outcomes) =>
      a.(worker := Posting(Ran(outcomes), a.worker.giveAway, a.worker.notify))
    case WritesEnded(writes) => a.(worker := Posting(GaveAway(writes), [], a.worker.notify))
    case Posted =>
      a.(results := a.results + [a.worker.o], worker := Carrying([], a.worker.giveAway, a.worker.notify))
    case Notified => a.(worker := Idle)
  }

  // What is on its way between the loop and the worker, oldest first.

  datatype Token = Ask(issue: Issue) | Answer(o: Observation) | Notice

  function AskOf(run: seq<Command>, giveAway: seq<Assignment>, notify: bool): seq<Token> {
    (if run != [] || giveAway != [] then [Ask(Issue(run, giveAway))] else []) + if notify then [Notice] else []
  }

  function TokensOf(d: Decision): seq<Token> {
    AskOf(d.run, d.giveAway, d.notify)
  }

  function Asks(ds: seq<Decision>): seq<Token> {
    if ds == [] then [] else TokensOf(ds[0]) + Asks(ds[1..])
  }

  function Answers(results: seq<Observation>): seq<Token> {
    seq(|results|, i requires 0 <= i < |results| => Answer(results[i]))
  }

  function InHand(w: WorkerPhase): seq<Token> {
    match w
    case Idle => []
    case Carrying(run, giveAway, notify) => AskOf(run, giveAway, notify)
    case Posting(o, giveAway, notify) => [Answer(o)] + AskOf([], giveAway, notify)
  }

  function Pipe(a: Agent): seq<Token> {
    Answers(a.results) + InHand(a.worker) + Asks(a.decisions) + Asks(a.toSend)
  }

  /** o fits the issue: as many results as commands, or a result for every name of the batch. */
  ghost predicate AnswersIssue(o: Observation, issue: Issue) {
    || (o.Ran? && issue.giveAway == [] && issue.run != [] && |o.outcomes| == |issue.run|)
    || (o.GaveAway? && issue.run == [] && issue.giveAway != [] && o.results.Keys == Working.KeysOf(issue.giveAway))
  }

  /** The one issue outstanding is asked once or answered once, behind at most one notice; with
      none outstanding at most a notice is left, and then no job is in flight. */
  ghost predicate PipeOk(m: DeciderState, pipe: seq<Token>) {
    var issue := Outstanding(m);
    if issue == NO_ISSUE then pipe == [] || (pipe == [Notice] && m.job.None?)
    else
      || pipe == [Ask(issue)] || pipe == [Notice, Ask(issue)]
      || (|pipe| == 1 && pipe[0].Answer? && AnswersIssue(pipe[0].o, issue))
  }

  ghost predicate AllWork(ds: seq<Decision>) {
    forall i | 0 <= i < |ds| :: HasWork(ds[i])
  }

  ghost predicate AgentOk(a: Agent) {
    && Inv(a.m, a.clock)
    && AllWork(a.decisions) && AllWork(a.toSend)
    && PipeOk(a.m, Pipe(a))
  }

  // What a decision adds to the pipe.

  lemma {:induction false} WorkConcat(a: seq<Decision>, b: seq<Decision>)
    ensures Work(a + b) == Work(a) + Work(b)
  {
    if b == [] {
      assert a + b == a;
    } else {
      WorkConcat(a, b[..|b| - 1]);
      assert (a + b)[..|a + b| - 1] == a + b[..|b| - 1] && (a + b)[|a + b| - 1] == b[|b| - 1];
    }
  }

  lemma {:induction false} WorkIsWork(ds: seq<Decision>)
    ensures AllWork(Work(ds))
  {
    if ds != [] {
      WorkIsWork(ds[..|ds| - 1]);
    }
  }

  lemma WorkOfOne(d: Decision)
    ensures Work([d]) == if HasWork(d) then [d] else []
  {
    assert [d][..0] == [];
  }

  /** A job in flight issues commands or give-aways, never both. */
  lemma IssuesAreApart(m: DeciderState, now: Time)
    requires Inv(m, now)
    ensures Outstanding(m).run == [] || Outstanding(m).giveAway == []
  {
    if m.job.Some? {
      IssuedCommandsFacts(m.job.value.commands);
      IssuedAssignmentsFacts(m.job.value.assignments);
    }
  }

  /** The work decided with nothing outstanding: perhaps a notice, if an older job was in flight,
      then the one issue, if any; after a notice the job in flight, if any, was just issued. */
  ghost predicate DecidedWork(work: seq<Decision>, older: bool, m': DeciderState) {
    var issue := Outstanding(m');
    var asked := if issue == NO_ISSUE then [] else [NOTHING.(run := issue.run, giveAway := issue.giveAway)];
    && (!older ==> work == asked && (issue == NO_ISSUE ==> m'.job.None?))
    && (older ==>
          || work == asked
          || (|work| == 1 + |asked| && work[1..] == asked && work[0].notify && !work[0].Issues()
              && (issue == NO_ISSUE ==> m'.job.None?)))
  }

  lemma EmptyIsSettled(m: DeciderState, now: Time)
    requires Between(m, now) && m.JustBuilt(now)
    ensures var j := m.UpdatedJob(now);
            && j == m.job.value && !j.Busy()
            && (j.commands == [] && j.assignments == [] ==> !j.NotifyFor(m.cfg.id))
            && (j.commands != [] || j.assignments != [] ==> !j.Settled(m.cfg.MaxAttempts()))
  {
    FreshJobIsUpToDate(m, now);
    BuiltIsOk(m, now);
    var j := m.UpdatedJob(now);
    if j.commands != [] {
      assert !j.commands[0].header.Settled(m.cfg.MaxAttempts());
    } else if j.assignments != [] {
      assert !j.assignments[0].header.Settled(m.cfg.MaxAttempts());
    }
  }

  /** Issuing a job just built issues all of it. */
  lemma BuiltIsAsked(m: DeciderState, now: Time)
    requires Between(m, now) && m.JustBuilt(now) && !m.UpdatedJob(now).Settled(m.cfg.MaxAttempts())
    ensures Outstanding(m.TakeTurn(now).m) != NO_ISSUE
  {
    EmptyIsSettled(m, now);
    BuiltIsOk(m, now);
    var j, j' := m.UpdatedJob(now), m.TakeTurn(now).m.job.value;
    BusyIsOutstanding(m.TakeTurn(now).m);
    if j.commands != [] {
      assert j'.commands[0].header.status.Issued?;
    } else {
      assert j.assignments != [];
      assert j'.assignments[0].header.status.Issued?;
    }
  }

  /** A job that ends: perhaps a notice, when it is not the one just built. */
  lemma EndingTurnWork(m: DeciderState, now: Time)
    requires Between(m, now) && m.job.Some? && !m.UpdatedJob(now).Busy()
    requires m.UpdatedJob(now).Settled(m.cfg.MaxAttempts())
    ensures var t := m.TakeTurn(now);
            && !t.stop && t.m.job.None?
            && (Work(t.decisions) == []
                || (m.OldJob(now) == 1 && |Work(t.decisions)| == 1
                    && Work(t.decisions)[0].notify && !Work(t.decisions)[0].Issues()))
  {
    WorkOfOne(m.TakeTurn(now).decisions[0]);
    if m.OldJob(now) == 0 {
      EmptyIsSettled(m, now);
    }
  }

  /** A job that goes on: its issue, if any is due, and one just built has one due. */
  lemma IssuingTurnWork(m: DeciderState, now: Time)
    requires Between(m, now) && m.job.Some? && !m.UpdatedJob(now).Busy()
    requires !m.UpdatedJob(now).Settled(m.cfg.MaxAttempts())
    ensures var t := m.TakeTurn(now);
            t.stop && DecidedWork(Work(t.decisions), m.OldJob(now) == 1, t.m)
  {
    var t := m.TakeTurn(now);
    IssueIsOutstanding(m, m.UpdatedJob(now), now);
    if t.decisions != [] {
      WorkOfOne(t.decisions[0]);
    }
    if m.OldJob(now) == 0 {
      BuiltIsAsked(m, now);
    }
  }

  /** The work of one turn of a job not outstanding. */
  lemma JobTurnWork(m: DeciderState, now: Time)
    requires Between(m, now) && m.job.Some? && Outstanding(m) == NO_ISSUE
    ensures var t := m.TakeTurn(now);
            && (t.stop ==> DecidedWork(Work(t.decisions), m.OldJob(now) == 1, t.m))
            && (!t.stop ==>
                  && t.m.job.None?
                  && (Work(t.decisions) == []
                      || (m.OldJob(now) == 1 && |Work(t.decisions)| == 1
                          && Work(t.decisions)[0].notify && !Work(t.decisions)[0].Issues())))
  {
    UpdatedJobIsOk(m, now);
    if m.UpdatedJob(now).Settled(m.cfg.MaxAttempts()) {
      EndingTurnWork(m, now);
    } else {
      IssuingTurnWork(m, now);
    }
  }

  lemma AdvanceWork(m: DeciderState, now: Time)
    requires Between(m, now) && Outstanding(m) == NO_ISSUE
    ensures var (m', ds) := m.AdvanceTime(now);
            DecidedWork(Work(ds), m.OldJob(now) == 1, m')
    decreases m.OldJob(now), m.OpenEdge(), m.UnhandledCount(), m.DueClaim(now), m.JobToBuild()
  {
    AdvanceTimeUnfolds(m, now);
    TurnIssues(m, now);
    var t := m.TakeTurn(now);
    if m.job.Some? {
      JobTurnWork(m, now);
    } else if t.decisions != [] {
      WorkOfOne(t.decisions[0]);
    }
    if !t.stop {
      TurnDecreases(m, now);
      AdvanceWork(t.m, now);
      WorkConcat(t.decisions, t.m.AdvanceTime(now).1);
    }
  }

  lemma BusyAdvanceWork(m: DeciderState, now: Time)
    requires Between(m, now) && Outstanding(m) != NO_ISSUE
    ensures Work(m.AdvanceTime(now).1) == []
  {
    AdvanceTimeUnfolds(m, now);
    UpdatedJobIsOk(m, now);
  }

  // Each step keeps the pipe.

  lemma Regroup(a: seq<Token>, b: seq<Token>, c: seq<Token>, d: seq<Token>)
    ensures a + (b + c) + d == a + b + (c + d)
  {
  }

  lemma {:induction false} AsksConcat(a: seq<Decision>, b: seq<Decision>)
    ensures Asks(a + b) == Asks(a) + Asks(b)
  {
    if a == [] {
      assert a + b == b;
    } else {
      AsksConcat(a[1..], b);
      assert (a + b)[0] == a[0] && (a + b)[1..] == a[1..] + b;
      Regroup([], TokensOf(a[0]), Asks(a[1..]), Asks(b));
      assert [] + TokensOf(a[0]) == TokensOf(a[0]);
      assert [] + (TokensOf(a[0]) + Asks(a[1..])) == Asks(a);
    }
  }

  /** Each decision for the worker is a token at least. */
  lemma {:induction false} WorkIsTokens(ds: seq<Decision>)
    requires AllWork(ds)
    ensures |Asks(ds)| >= |ds|
  {
    if ds != [] {
      WorkIsTokens(ds[1..]);
    }
  }

  lemma AsksOfOne(d: Decision)
    ensures Asks([d]) == TokensOf(d)
  {
    assert [d][1..] == [];
  }

  lemma AskedTokens(issue: Issue)
    requires issue != NO_ISSUE
    ensures Asks([NOTHING.(run := issue.run, giveAway := issue.giveAway)]) == [Ask(issue)]
  {
    AsksOfOne(NOTHING.(run := issue.run, giveAway := issue.giveAway));
  }

  /** The work decided, as tokens behind what was on its way. */
  lemma WorkKeepsPipe(pipe: seq<Token>, work: seq<Decision>, older: bool, m': DeciderState)
    requires DecidedWork(work, older, m')
    requires pipe == [] || (pipe == [Notice] && !older)
    ensures PipeOk(m', pipe + Asks(work))
  {
    var issue := Outstanding(m');
    if issue != NO_ISSUE {
      AskedTokens(issue);
    }
    if work != [] && work[0].notify {
      assert Asks(work) == TokensOf(work[0]) + Asks(work[1..]);
    }
  }

  lemma ObserveWork(m: DeciderState, now: Time, o: Observation)
    requires m.WellFormed() && ValidObservation(o)
    ensures Work(m.Observe(now, o).1) == []
  {
    var ds := m.Observe(now, o).1;
    if ds != [] {
      WorkOfOne(ds[0]);
    }
  }

  lemma NoWorkBefore(none: seq<Decision>, more: seq<Decision>)
    requires Work(none) == []
    ensures Work(none + more) == Work(more) && AllWork(Work(none + more))
  {
    WorkConcat(none, more);
    WorkIsWork(none + more);
  }

  lemma DecideIsAdvance(m: DeciderState, now: Time, o: Observation)
    requires m.WellFormed() && ValidObservation(o)
    ensures var seen := m.Observe(now, o).0;
            && seen.WellFormed() && m.Decide(now, o).0 == seen.AdvanceTime(now).0
            && Work(m.Decide(now, o).1) == Work(seen.AdvanceTime(now).1)
            && AllWork(Work(m.Decide(now, o).1))
  {
    ObserveKeepsWellFormed(m, now, o);
    ObserveWork(m, now, o);
    var (seen, ds) := m.Observe(now, o);
    var more := seen.AdvanceTime(now).1;
    assert m.Decide(now, o) == (seen.AdvanceTime(now).0, ds + more);
    NoWorkBefore(ds, more);
  }

  lemma AdvanceWorks(m: DeciderState, now: Time)
    requires Between(m, now)
    ensures var (m', ds) := m.AdvanceTime(now);
            && Inv(m', now)
            && (Outstanding(m) == NO_ISSUE ==> DecidedWork(Work(ds), m.OldJob(now) == 1, m'))
            && (Outstanding(m) != NO_ISSUE ==> Work(ds) == [] && Outstanding(m') == Outstanding(m))
  {
    AdvanceTimeIssues(m, now);
    if Outstanding(m) == NO_ISSUE {
      AdvanceWork(m, now);
    } else {
      BusyAdvanceWork(m, now);
    }
  }

  lemma DecideWork(m: DeciderState, before: Time, now: Time, o: Observation)
    requires Inv(m, before) && before <= now && ValidObservation(o)
    ensures var (m', ds) := m.Decide(now, o);
            var seen := m.Observe(now, o).0;
            && Inv(m', now) && seen.WellFormed() && AllWork(Work(ds))
            && (Outstanding(seen) == NO_ISSUE ==> DecidedWork(Work(ds), seen.OldJob(now) == 1, m'))
            && (Outstanding(seen) != NO_ISSUE ==> Work(ds) == [] && Outstanding(m') == Outstanding(seen))
  {
    InvLater(m, before, now);
    ObserveKeepsInv(m, now, o);
    DecideIsAdvance(m, now, o);
    AdvanceWorks(m.Observe(now, o).0, now);
  }

  lemma WorkJoinsPipe(a: Agent, a': Agent, older: bool)
    requires AgentOk(a) && a.toSend == [] && a' == a.(m := a'.m, clock := a'.clock, toSend := a'.toSend)
    requires Inv(a'.m, a'.clock) && AllWork(a'.toSend) && (older ==> a.m.job.Some?)
    requires Outstanding(a.m) == NO_ISSUE ==> DecidedWork(a'.toSend, older, a'.m)
    requires Outstanding(a.m) != NO_ISSUE ==> a'.toSend == [] && Outstanding(a'.m) == Outstanding(a.m)
    ensures AgentOk(a')
  {
    assert Pipe(a') == Pipe(a) + Asks(a'.toSend);
    if Outstanding(a.m) == NO_ISSUE {
      WorkKeepsPipe(Pipe(a), a'.toSend, older, a'.m);
    }
  }

  lemma ObservedKeeps(a: Agent, now: Time, o: Observation)
    requires AgentOk(a) && Enabled(a, Observed(now, o))
    ensures AgentOk(a.Decided(now, o))
  {
    DecideWork(a.m, a.clock, now, o);
    var seen := a.m.Observe(now, o).0;
    assert seen.job == a.m.job;
    WorkJoinsPipe(a, a.Decided(now, o), seen.OldJob(now) == 1);
  }

  /** A result read answers the issue outstanding, which is then no longer. */
  lemma ReportClears(m: DeciderState, now: Time, o: Observation)
    requires Inv(m, now) && ValidObservation(o) && AnswersIssue(o, Outstanding(m))
    ensures Outstanding(m.Observe(now, o).0) == NO_ISSUE
  {
    BusyIsOutstanding(m);
    BusyIsOutstanding(m.Observe(now, o).0);
    if m.job.Some? {
      IssuedCommandsFacts(m.job.value.commands);
      IssuedAssignmentsFacts(m.job.value.assignments);
    }
  }

  lemma AnswerIsAlone(a: Agent)
    requires AgentOk(a) && a.results != []
    ensures a.results == [a.results[0]] && Pipe(a) == [Answer(a.results[0])]
    ensures InHand(a.worker) == [] && Asks(a.decisions) == [] && Asks(a.toSend) == []
    ensures AnswersIssue(a.results[0], Outstanding(a.m))
  {
    var pipe := Pipe(a);
    assert pipe[0] == Answer(a.results[0]);
    assert |pipe| == |a.results| + |InHand(a.worker)| + |Asks(a.decisions)| + |Asks(a.toSend)|;
  }

  lemma ResultReadKeeps(a: Agent, now: Time)
    requires AgentOk(a) && Enabled(a, ResultRead(now))
    ensures AgentOk(Next(a, ResultRead(now)))
  {
    AnswerIsAlone(a);
    InvLater(a.m, a.clock, now);
    ReportClears(a.m, now, a.results[0]);
    DecideWork(a.m, a.clock, now, a.results[0]);
    ReadLeavesWork(a, Next(a, ResultRead(now)), a.m.Observe(now, a.results[0]).0.OldJob(now) == 1);
  }

  lemma ReadLeavesWork(a: Agent, a': Agent, older: bool)
    requires InHand(a.worker) == [] && Asks(a.decisions) == [] && AllWork(a.decisions)
    requires Inv(a'.m, a'.clock) && AllWork(a'.toSend) && DecidedWork(a'.toSend, older, a'.m)
    requires a'.results == [] && a'.worker == a.worker && a'.decisions == a.decisions
    ensures AgentOk(a')
  {
    WorkKeepsPipe([], a'.toSend, older, a'.m);
    assert Pipe(a') == [] + Asks(a'.toSend);
  }

  lemma SentKeepsPipe(a: Agent)
    requires Enabled(a, Sent)
    ensures Pipe(Next(a, Sent)) == Pipe(a)
  {
    var a', d := Next(a, Sent), a.toSend[0];
    var ahead, token := Answers(a.results) + InHand(a.worker), TokensOf(d);
    AsksConcat(a.decisions, [d]);
    AsksOfOne(d);
    assert Asks(a'.decisions) == Asks(a.decisions) + token;
    assert Asks(a.toSend) == token + Asks(a'.toSend);
    Regroup(ahead, Asks(a.decisions), token, Asks(a'.toSend));
  }

  lemma TakenKeepsPipe(a: Agent)
    requires Enabled(a, Taken)
    ensures Pipe(Next(a, Taken)) == Pipe(a)
  {
    var a', d := Next(a, Taken), a.decisions[0];
    var token := TokensOf(d);
    assert Asks(a.decisions) == token + Asks(a'.decisions);
    assert Answers(a.results) + [] == Answers(a.results);
    Regroup(Answers(a.results), [], token, Asks(a'.decisions));
  }

  /** The worker is on the issue outstanding, and nothing else is on its way. */
  lemma AskIsAlone(a: Agent)
    requires AgentOk(a) && a.worker.Carrying? && (a.worker.run != [] || a.worker.giveAway != [])
    ensures Outstanding(a.m) == Issue(a.worker.run, a.worker.giveAway)
    ensures Answers(a.results) == [] && !a.worker.notify && Asks(a.decisions) == [] && Asks(a.toSend) == []
  {
    var pipe, w := Pipe(a), a.worker;
    if a.results != [] {
      AnswerIsAlone(a);
    } else {
      assert pipe[0] == Ask(Issue(w.run, w.giveAway));
      assert |pipe| == |InHand(w)| + |Asks(a.decisions)| + |Asks(a.toSend)|;
    }
  }

  lemma EndedKeeps(a: Agent, e: Event)
    requires AgentOk(a) && Enabled(a, e) && (e.CommandsEnded? || e.WritesEnded?)
    ensures AgentOk(Next(a, e))
  {
    AskIsAlone(a);
    IssuesAreApart(a.m, a.clock);
    var a' := Next(a, e);
    assert Pipe(a') == [Answer(a'.worker.o)];
  }

  lemma PostedKeepsPipe(a: Agent)
    requires Enabled(a, Posted)
    ensures Pipe(Next(a, Posted)) == Pipe(a)
  {
    var a' := Next(a, Posted);
    assert Answers(a'.results) == Answers(a.results) + [Answer(a.worker.o)];
  }

  lemma NotifiedKeeps(a: Agent)
    requires AgentOk(a) && Enabled(a, Notified)
    ensures AgentOk(Next(a, Notified))
  {
    var a' := Next(a, Notified);
    if a.worker.notify {
      if a.results != [] {
        AnswerIsAlone(a);
      } else {
        assert Pipe(a)[0] == Notice && Pipe(a') == Pipe(a)[1..];
      }
    } else {
      assert Pipe(a') == Pipe(a);
    }
  }

  lemma SamePipeIsOk(a: Agent, a': Agent)
    requires AgentOk(a) && a'.m == a.m && a'.clock == a.clock && Pipe(a') == Pipe(a)
    requires AllWork(a'.decisions) && AllWork(a'.toSend)
    ensures AgentOk(a')
  {
  }

  // Passing a decision on, or a result, moves it along the pipe.

  lemma SentKeeps(a: Agent)
    requires AgentOk(a) && Enabled(a, Sent)
    ensures AgentOk(Next(a, Sent))
  {
    SentKeepsPipe(a);
    SamePipeIsOk(a, Next(a, Sent));
  }

  lemma TakenKeeps(a: Agent)
    requires AgentOk(a) && Enabled(a, Taken)
    ensures AgentOk(Next(a, Taken))
  {
    TakenKeepsPipe(a);
    SamePipeIsOk(a, Next(a, Taken));
  }

  lemma PostedKeeps(a: Agent)
    requires AgentOk(a) && Enabled(a, Posted)
    ensures AgentOk(Next(a, Posted))
  {
    PostedKeepsPipe(a);
    SamePipeIsOk(a, Next(a, Posted));
  }

  lemma NextKeeps(a: Agent, e: Event)
    requires AgentOk(a) && Enabled(a, e)
    ensures AgentOk(Next(a, e))
  {
    match e {
      case Observed(now, o) => ObservedKeeps(a, now, o);
      case ResultRead(now) => ResultReadKeeps(a, now);
      case CommandsEnded(outcomes) => EndedKeeps(a, e);
      case WritesEnded(writes) => EndedKeeps(a, e);
      case Notified => NotifiedKeeps(a);
      case Sent => SentKeeps(a);
      case Taken => TakenKeeps(a);
      case Posted => PostedKeeps(a);
    }
  }

  /** An agent before its first step. */
  function AgentAt(cfg: Config, handled: Option<Handled>, clock: Time): Agent {
    Agent(Started(cfg, handled), clock, [], [], Idle, [])
  }

  ghost predicate Run(a: Agent, events: seq<Event>, a': Agent)
    decreases |events|
  {
    if events == [] then a' == a else Enabled(a, events[0]) && Run(Next(a, events[0]), events[1..], a')
  }

  lemma {:induction false} RunKeeps(a: Agent, events: seq<Event>, a': Agent)
    requires AgentOk(a) && Run(a, events, a')
    ensures AgentOk(a')
    decreases |events|
  {
    if events != [] {
      NextKeeps(a, events[0]);
      RunKeeps(Next(a, events[0]), events[1..], a');
    }
  }

  // Over every interleaving.

  lemma ReachedIsOk(cfg: Config, handled: Option<Handled>, clock: Time, events: seq<Event>, a: Agent)
    requires Runs.ValidStart(cfg, handled) && Run(AgentAt(cfg, handled, clock), events, a)
    ensures AgentOk(a)
  {
    StartedIsOk(cfg, handled, clock);
    RunKeeps(AgentAt(cfg, handled, clock), events, a);
  }

  /** The channels never fill: at most two decisions wait, sent or not, and at most one result,
      so a send or a post that is due never blocks. */
  lemma NoSendBlocks(cfg: Config, handled: Option<Handled>, clock: Time, events: seq<Event>, a: Agent)
    requires Runs.ValidStart(cfg, handled) && Run(AgentAt(cfg, handled, clock), events, a)
    ensures |a.decisions| + |a.toSend| <= 2 && |a.results| <= 1
    ensures a.toSend != [] ==> Enabled(a, Sent)
    ensures a.worker.Posting? ==> Enabled(a, Posted)
  {
    ReachedIsOk(cfg, handled, clock, events, a);
    WorkIsTokens(a.decisions);
    WorkIsTokens(a.toSend);
    if a.results != [] {
      AnswerIsAlone(a);
    }
    assert |Pipe(a)| <= 2;
  }

  /** Every result the loop reads answers the one issue outstanding, whole, with nothing else on
      its way; and while the worker is on an issue, that issue is the one outstanding. */
  lemma ResultsAnswerTheIssue(cfg: Config, handled: Option<Handled>, clock: Time, events: seq<Event>, a: Agent)
    requires Runs.ValidStart(cfg, handled) && Run(AgentAt(cfg, handled, clock), events, a)
    ensures a.results != [] ==>
              && AnswersIssue(a.results[0], Outstanding(a.m))
              && InHand(a.worker) == [] && a.decisions == [] && a.toSend == []
    ensures a.worker.Carrying? && (a.worker.run != [] || a.worker.giveAway != []) ==>
              Outstanding(a.m) == Issue(a.worker.run, a.worker.giveAway)
  {
    ReachedIsOk(cfg, handled, clock, events, a);
    if a.results != [] {
      AnswerIsAlone(a);
      WorkIsTokens(a.decisions);
      WorkIsTokens(a.toSend);
    } else if a.worker.Carrying? && (a.worker.run != [] || a.worker.giveAway != []) {
      AskIsAlone(a);
    }
  }

  /** While an issue is outstanding nothing more is decided for the worker. */
  lemma NothingMoreDecided(cfg: Config, handled: Option<Handled>, clock: Time, events: seq<Event>, a: Agent,
                           now: Time, o: Observation)
    requires Runs.ValidStart(cfg, handled) && Run(AgentAt(cfg, handled, clock), events, a)
    requires Enabled(a, Observed(now, o)) && Outstanding(a.m) != NO_ISSUE
    ensures a.Decided(now, o).toSend == [] && Outstanding(a.Decided(now, o).m) == Outstanding(a.m)
  {
    ReachedIsOk(cfg, handled, clock, events, a);
    DecideWork(a.m, a.clock, now, o);
  }

  // No notification is lost or shown twice.

  function Notices(ds: seq<Decision>): nat {
    if ds == [] then 0 else Notices(ds[..|ds| - 1]) + if ds[|ds| - 1].notify then 1 else 0
  }

  lemma {:induction false} NoticesConcat(a: seq<Decision>, b: seq<Decision>)
    ensures Notices(a + b) == Notices(a) + Notices(b)
  {
    if b == [] {
      assert a + b == a;
    } else {
      NoticesConcat(a, b[..|b| - 1]);
      assert (a + b)[..|a + b| - 1] == a + b[..|b| - 1] && (a + b)[|a + b| - 1] == b[|b| - 1];
    }
  }

  lemma {:induction false} WorkKeepsNotices(ds: seq<Decision>)
    ensures Notices(Work(ds)) == Notices(ds)
  {
    if ds != [] {
      var last := ds[|ds| - 1];
      WorkKeepsNotices(ds[..|ds| - 1]);
      NoticesConcat(Work(ds[..|ds| - 1]), if HasWork(last) then [last] else []);
      assert [last][..0] == [];
    }
  }

  /** The notifications decided and not yet shown. */
  function NoticesDue(a: Agent): nat {
    Notices(a.toSend) + Notices(a.decisions) + if !a.worker.Idle? && a.worker.notify then 1 else 0
  }

  /** The notifications the decider asks for in a step. */
  function Told(a: Agent, e: Event): nat
    requires Enabled(a, e)
  {
    match e
    case Observed(now, o) => Notices(a.m.Decide(now, o).1)
    case ResultRead(now) => Notices(a.m.Decide(now, a.results[0]).1)
    case _ => 0
  }

  /** The notifications the worker shows in a step. */
  function Shown(a: Agent, e: Event): nat
    requires Enabled(a, e)
  {
    if e.Notified? && a.worker.notify then 1 else 0
  }

  lemma FirstNotice(ds: seq<Decision>)
    requires ds != []
    ensures Notices(ds) == Notices(ds[1..]) + if ds[0].notify then 1 else 0
  {
    NoticesConcat([ds[0]], ds[1..]);
    assert ds == [ds[0]] + ds[1..] && [ds[0]][..0] == [];
  }

  lemma StepKeepsNotices(a: Agent, e: Event)
    requires Enabled(a, e)
    ensures Told(a, e) + NoticesDue(a) == Shown(a, e) + NoticesDue(Next(a, e))
  {
    match e {
      case Observed(now, o) => WorkKeepsNotices(a.m.Decide(now, o).1);
      case ResultRead(now) => WorkKeepsNotices(a.m.Decide(now, a.results[0]).1);
      case Sent =>
        FirstNotice(a.toSend);
        NoticesConcat(a.decisions, [a.toSend[0]]);
        assert [a.toSend[0]][..0] == [];
      case Taken => FirstNotice(a.decisions);
      case _ =>
    }
  }

  ghost function AllTold(a: Agent, events: seq<Event>, a': Agent): nat
    requires Run(a, events, a')
    decreases |events|
  {
    if events == [] then 0 else Told(a, events[0]) + AllTold(Next(a, events[0]), events[1..], a')
  }

  ghost function AllShown(a: Agent, events: seq<Event>, a': Agent): nat
    requires Run(a, events, a')
    decreases |events|
  {
    if events == [] then 0 else Shown(a, events[0]) + AllShown(Next(a, events[0]), events[1..], a')
  }

  /** Over every interleaving the notifications asked for are those shown and those still on their way. */
  lemma {:induction false} NoticesAreShown(a: Agent, events: seq<Event>, a': Agent)
    requires Run(a, events, a')
    ensures AllTold(a, events, a') + NoticesDue(a) == AllShown(a, events, a') + NoticesDue(a')
    decreases |events|
  {
    if events != [] {
      StepKeepsNotices(a, events[0]);
      NoticesAreShown(Next(a, events[0]), events[1..], a');
    }
  }

  /** The k-th result of a run goes to its k-th command. */
  lemma KthResultToKthCommand(j: JobState, results: seq<Result>, i: nat)
    requires i < |j.commands| && j.commands[i].header.status.Issued? && |results| == |IssuedCommands(j.commands)|
    ensures var k := |IssuedCommands(j.commands[..i])|;
            && k < |results| && IssuedCommands(j.commands)[k] == j.commands[i].cmd
            && j.ReportRun(results).commands[i].header == j.commands[i].header.Report(results[k])
  {
    IssuedCommandsPrefix(j.commands, i);
  }

  lemma {:induction false} IssuedCommandsPrefix(tasks: seq<CommandTask>, i: nat)
    requires i < |tasks| && tasks[i].header.status.Issued?
    ensures |IssuedCommands(tasks[..i])| < |IssuedCommands(tasks)|
    ensures IssuedCommands(tasks)[|IssuedCommands(tasks[..i])|] == tasks[i].cmd
  {
    var n := |tasks| - 1;
    if i < n {
      IssuedCommandsPrefix(tasks[..n], i);
      assert tasks[..n][..i] == tasks[..i];
    }
  }
}
