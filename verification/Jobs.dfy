/** The work in flight: tasks, the job they make up, and what it records. */
module Jobs {
  import opened Options
  import opened State

  const TAKE_SCREEN := "take-screen"
  const TAKE_HID := "take-hid"

  /** Work for the worker: exec an argv, or post takes; a take of 0 is no take. */
  datatype Command = Command(argv: seq<string>, takeScreen: int, takeHID: int) {
    predicate ExactlyOneField() {
      && !(argv != [] && takeScreen != 0)
      && !(argv != [] && takeHID != 0)
      && !(takeScreen != 0 && takeHID != 0)
      && (argv != [] || takeScreen != 0 || takeHID != 0)
    }

    predicate Takes() {
      takeScreen != 0 || takeHID != 0
    }
  }

  datatype Decision = Decision(claim: Option<HostId>, run: seq<Command>, giveAway: seq<Assignment>,
                               notify: bool, save: Option<AgentState>)
  {
    /** It starts work whose result comes back as an observation. */
    predicate Issues() {
      run != [] || giveAway != []
    }
  }

  const NOTHING := Decision(None, [], [], false, None)

  /** How one command or one write ended. */
  datatype Result = Success | NotHere | Failure

  datatype Status = Pending | Issued | AwaitingArrival | Failed | Done | Dropped

  datatype DropReason = OwnershipMoved | OwnershipBack | Replaced | AssigneeNotLive

  /** The part commands and give-aways share. */
  datatype Header = Header(status: Status, attempts: nat, lastIssued: Time, dropReason: Option<DropReason>) {
    function Drop(reason: DropReason): Header {
      match status
      case Done => this
      case Dropped => this
      case Issued => if dropReason.None? then this.(dropReason := Some(reason)) else this
      case _ => this.(status := Dropped, dropReason := Some(reason))
    }

    function Report(result: Result): Header {
      if result.Success? then this.(status := Done)
      else if dropReason.Some? then this.(status := Dropped)
      else this.(status := Failed)
    }

    predicate Retriable(maxAttempts: nat) {
      status.Failed? && attempts < maxAttempts
    }

    function RetryAt(spacing: Time): Time {
      lastIssued + spacing
    }

    predicate Due(now: Time, maxAttempts: nat, spacing: Time) {
      status.Pending? || (Retriable(maxAttempts) && now >= RetryAt(spacing))
    }

    function Issue(now: Time): Header {
      this.(status := Issued, attempts := attempts + 1, lastIssued := now)
    }

    function IssueIfDue(now: Time, maxAttempts: nat, spacing: Time): Header {
      if Due(now, maxAttempts, spacing) then Issue(now) else this
    }

    predicate Settled(maxAttempts: nat) {
      !status.Pending? && !status.Issued? && !status.AwaitingArrival? && !Retriable(maxAttempts)
    }
  }

  const FRESH := Header(Pending, 0, 0, None)

  datatype CommandTask = CommandTask(header: Header, cmd: Command)

  datatype AssignmentTask = AssignmentTask(header: Header, assignment: Assignment, triedToMove: bool, sentAt: Time) {
    function Key(): AssignmentKey {
      assignment.Key()
    }

    function ArrivalDeadline(window: Time): Time {
      sentAt + window
    }

    function Expire(now: Time, window: Time): AssignmentTask {
      if header.status.AwaitingArrival? && now >= ArrivalDeadline(window) then
        this.(header := header.(status := Failed))
      else this
    }

    /** The task once its batch reported results at now. */
    function Reported(now: Time, results: map<AssignmentKey, Result>): AssignmentTask {
      var reported := Key() in results;
      var result := if reported then results[Key()] else Failure;
      var t := this.(triedToMove := triedToMove || !reported || !result.NotHere?);
      var t' :=
        if result.NotHere? then t.(header := header.(status := Done))
        else if result.Failure? then t.(header := header.(status := Failed))
        else if assignment.kind == KIND_SCREEN then t.(header := header.(status := Done))
        else t.(header := header.(status := AwaitingArrival), sentAt := now);
      if header.dropReason.Some? && !t'.header.status.Done? then t'.(header := t'.header.(status := Dropped))
      else t'
    }

    /** A newer take replaced the assignment. */
    predicate ReplacedIn(current: map<AssignmentKey, Assignment>) {
      Key() !in current || current[Key()].seqno != assignment.seqno
    }

    /** A task nobody is there to receive, and not under way, stops. */
    predicate StopsNotLive(s: ServerState, current: map<AssignmentKey, Assignment>) {
      && !ReplacedIn(current)
      && !s.IsLive(assignment.assignee)
      && !header.status.Issued? && !header.status.Done? && !header.status.Dropped?
    }

    function DropExpired(s: ServerState, current: map<AssignmentKey, Assignment>): AssignmentTask {
      if ReplacedIn(current) then this.(header := header.Drop(Replaced))
      else if StopsNotLive(s, current) then this.(header := header.Drop(AssigneeNotLive))
      else this
    }

    /** The state holds this device's receipt. */
    predicate ArrivedIn(current: map<AssignmentKey, Assignment>) {
      !ReplacedIn(current) && current[Key()].kind == KIND_HID && current[Key()].arrived
    }

    function MarkArrived(current: map<AssignmentKey, Assignment>): AssignmentTask {
      if (header.status.AwaitingArrival? || header.status.Failed?) && ArrivedIn(current) then
        this.(header := header.(status := Done))
      else this
    }
  }

  datatype Ownership = Ownership(owner: HostId, activation: int)

  /** What the end of a job contributes to what is handled. */
  datatype Record = Record(ownership: Option<Ownership>, seqs: map<AssignmentKey, Seq>) {
    /** The reason s makes the ownership commands pointless, None while they still matter. */
    function CommandsExpired(s: ServerState, me: HostId): Option<DropReason> {
      match ownership
      case None => None
      case Some(o) =>
        if o.owner == me && (s.owner != me || s.activation != o.activation) then Some(OwnershipMoved)
        else if o.owner != me && s.owner == me then Some(OwnershipBack)
        else None
    }
  }

  /** What DueDecision runs, in task order. */
  function DueCommands(tasks: seq<CommandTask>, now: Time, maxAttempts: nat, spacing: Time): seq<Command> {
    if tasks == [] then []
    else
      var t := tasks[|tasks| - 1];
      DueCommands(tasks[..|tasks| - 1], now, maxAttempts, spacing)
      + if t.header.Due(now, maxAttempts, spacing) then [t.cmd] else []
  }

  /** What DueDecision gives away, in task order. */
  function DueAssignments(tasks: seq<AssignmentTask>, now: Time, maxAttempts: nat, spacing: Time): seq<Assignment> {
    if tasks == [] then []
    else
      var t := tasks[|tasks| - 1];
      DueAssignments(tasks[..|tasks| - 1], now, maxAttempts, spacing)
      + if t.header.Due(now, maxAttempts, spacing) then [t.assignment] else []
  }

  function IssuedCommands(tasks: seq<CommandTask>): seq<Command> {
    if tasks == [] then []
    else
      var t := tasks[|tasks| - 1];
      IssuedCommands(tasks[..|tasks| - 1]) + if t.header.status.Issued? then [t.cmd] else []
  }

  function IssuedAssignments(tasks: seq<AssignmentTask>): seq<Assignment> {
    if tasks == [] then []
    else
      var t := tasks[|tasks| - 1];
      IssuedAssignments(tasks[..|tasks| - 1]) + if t.header.status.Issued? then [t.assignment] else []
  }

  function ResultAt(results: seq<Result>, i: nat): Result {
    if i < |results| then results[i] else Failure
  }

  /** The keys of the tasks that tried to move something, in order. */
  function TriedKeys(tasks: seq<AssignmentTask>): seq<AssignmentKey> {
    if tasks == [] then []
    else
      var t := tasks[|tasks| - 1];
      TriedKeys(tasks[..|tasks| - 1]) + if t.triedToMove then [t.Key()] else []
  }

  function ArrivalDeadlines(tasks: seq<AssignmentTask>, window: Time): seq<Time> {
    if tasks == [] then []
    else
      var t := tasks[|tasks| - 1];
      ArrivalDeadlines(tasks[..|tasks| - 1], window)
      + if t.header.status.AwaitingArrival? then [t.ArrivalDeadline(window)] else []
  }

  function RetryTimes(headers: seq<Header>, maxAttempts: nat, spacing: Time): seq<Time> {
    if headers == [] then []
    else
      var h := headers[|headers| - 1];
      RetryTimes(headers[..|headers| - 1], maxAttempts, spacing)
      + if h.Retriable(maxAttempts) then [h.RetryAt(spacing)] else []
  }

  datatype JobState = JobState(commands: seq<CommandTask>, assignments: seq<AssignmentTask>, record: Record) {
    predicate Busy() {
      || (exists i | 0 <= i < |commands| :: commands[i].header.status.Issued?)
      || (exists i | 0 <= i < |assignments| :: assignments[i].header.status.Issued?)
    }

    predicate Settled(maxAttempts: nat) {
      && (forall i | 0 <= i < |commands| :: commands[i].header.Settled(maxAttempts))
      && (forall i | 0 <= i < |assignments| :: assignments[i].header.Settled(maxAttempts))
    }

    function IssueTasks(now: Time, maxAttempts: nat, spacing: Time): JobState {
      JobState(
        seq(|commands|, i requires 0 <= i < |commands| =>
          commands[i].(header := commands[i].header.IssueIfDue(now, maxAttempts, spacing))),
        seq(|assignments|, i requires 0 <= i < |assignments| =>
          assignments[i].(header := assignments[i].header.IssueIfDue(now, maxAttempts, spacing))),
        record)
    }

    function DueDecision(now: Time, maxAttempts: nat, spacing: Time): Option<Decision> {
      var run := DueCommands(commands, now, maxAttempts, spacing);
      var giveAway := DueAssignments(assignments, now, maxAttempts, spacing);
      if run == [] && giveAway == [] then None
      else Some(NOTHING.(run := run, giveAway := giveAway))
    }

    function Expire(now: Time, window: Time): JobState {
      this.(assignments := seq(|assignments|, i requires 0 <= i < |assignments| => assignments[i].Expire(now, window)))
    }

    predicate AwaitsRun() {
      exists i | 0 <= i < |commands| :: commands[i].header.status.Issued?
    }

    predicate AwaitsGiveAway() {
      exists i | 0 <= i < |assignments| :: assignments[i].header.status.Issued?
    }

    /** The i-th issued command gets the i-th result; one with no result failed. */
    function ReportRun(results: seq<Result>): JobState {
      this.(commands := seq(|commands|, i requires 0 <= i < |commands| =>
        var t := commands[i];
        if t.header.status.Issued? then
          t.(header := t.header.Report(ResultAt(results, |IssuedCommands(commands[..i])|)))
        else t))
    }

    function ReportGiveAway(now: Time, results: map<AssignmentKey, Result>): JobState {
      this.(assignments := seq(|assignments|, i requires 0 <= i < |assignments| =>
        if assignments[i].header.status.Issued? then assignments[i].Reported(now, results) else assignments[i]))
    }

    function ApplyState(s: ServerState, me: HostId): JobState {
      var expired := record.CommandsExpired(s, me);
      var current := ByKey(s.assignments);
      JobState(
        (if expired.None? then
           commands
         else
           seq(|commands|, i requires 0 <= i < |commands| =>
             commands[i].(header := commands[i].header.Drop(expired.value)))),
        seq(|assignments|, i requires 0 <= i < |assignments| =>
          assignments[i].DropExpired(s, current).MarkArrived(current)),
        record.(seqs := record.seqs - NotLiveKeys(assignments, s, current)))
    }

    function Headers(): seq<Header> {
      seq(|commands| + |assignments|, i requires 0 <= i < |commands| + |assignments| =>
        if i < |commands| then commands[i].header else assignments[i - |commands|].header)
    }

    /** The times worth waking for: windows that close and, unless a result is due anyway,
        spacings that pass. */
    function Deadlines(maxAttempts: nat, spacing: Time, window: Time): seq<Time> {
      ArrivalDeadlines(assignments, window) + if Busy() then [] else RetryTimes(Headers(), maxAttempts, spacing)
    }

    predicate NotifyFor(me: HostId) {
      exists i | 0 <= i < |assignments| :: assignments[i].header.status.Failed? && assignments[i].assignment.prev == me
    }
  }

  /** The keys a stopped task takes out of the record: they stay pending. */
  function NotLiveKeys(tasks: seq<AssignmentTask>, s: ServerState, current: map<AssignmentKey, Assignment>)
    : set<AssignmentKey>
  {
    set t | t in tasks && t.StopsNotLive(s, current) :: t.Key()
  }

  lemma {:induction false} SomeIssued(tasks: seq<CommandTask>)
    ensures IssuedCommands(tasks) != [] <==> exists i :: 0 <= i < |tasks| && tasks[i].header.status.Issued?
  {
    if tasks != [] {
      var n := |tasks| - 1;
      SomeIssued(tasks[..n]);
      assert forall i | 0 <= i < n :: tasks[..n][i] == tasks[i];
    }
  }

  class Job {
    var commands: seq<CommandTask>
    var assignments: seq<AssignmentTask>
    var record: Record

    function Value(): JobState
      reads this
    {
      JobState(commands, assignments, record)
    }

    constructor (j: JobState)
      ensures Value() == j
    {
      commands, assignments, record := j.commands, j.assignments, j.record;
    }

    /** Issues all that is due as one batch; None when that is nothing. */
    method Issue(now: Time, maxAttempts: nat, spacing: Time) returns (d: Option<Decision>)
      modifies this
      ensures Value() == old(Value()).IssueTasks(now, maxAttempts, spacing)
      ensures d == old(Value()).DueDecision(now, maxAttempts, spacing)
    {
      ghost var was := Value();
      ghost var goal := was.IssueTasks(now, maxAttempts, spacing);
      var run, giveAway := [], [];
      for i := 0 to |commands|
        invariant |commands| == |was.commands| && assignments == was.assignments && record == was.record
        invariant forall k | 0 <= k < |commands| :: commands[k] == if k < i then goal.commands[k] else was.commands[k]
        invariant run == DueCommands(was.commands[..i], now, maxAttempts, spacing)
      {
        assert was.commands[..i + 1][..i] == was.commands[..i];
        var t := commands[i];
        if t.header.Due(now, maxAttempts, spacing) {
          commands := commands[i := t.(header := t.header.Issue(now))];
          run := run + [t.cmd];
        }
      }
      for i := 0 to |assignments|
        invariant |assignments| == |was.assignments| && commands == goal.commands && record == was.record
        invariant forall k | 0 <= k < |assignments| ::
                    assignments[k] == if k < i then goal.assignments[k] else was.assignments[k]
        invariant giveAway == DueAssignments(was.assignments[..i], now, maxAttempts, spacing)
      {
        assert was.assignments[..i + 1][..i] == was.assignments[..i];
        var t := assignments[i];
        if t.header.Due(now, maxAttempts, spacing) {
          assignments := assignments[i := t.(header := t.header.Issue(now))];
          giveAway := giveAway + [t.assignment];
        }
      }
      assert was.commands[..|was.commands|] == was.commands;
      assert was.assignments[..|was.assignments|] == was.assignments;
      d := if run == [] && giveAway == [] then None else Some(NOTHING.(run := run, giveAway := giveAway));
    }

    /** Turns overdue arrivals into failures. */
    method Expire(now: Time, window: Time)
      modifies this
      ensures Value() == old(Value()).Expire(now, window)
    {
      ghost var was := Value();
      for i := 0 to |assignments|
        invariant |assignments| == |was.assignments| && commands == was.commands && record == was.record
        invariant forall k | 0 <= k < |assignments| ::
                    assignments[k] == if k < i then was.assignments[k].Expire(now, window) else was.assignments[k]
      {
        var t := assignments[i];
        if t.header.status.AwaitingArrival? && now >= t.ArrivalDeadline(window) {
          assignments := assignments[i := t.(header := t.header.(status := Failed))];
        }
      }
    }

    /** Hands the results out over the issued commands; not ok means nobody was waiting. */
    method ReportRun(results: seq<Result>) returns (ok: bool)
      modifies this
      ensures Value() == old(Value()).ReportRun(results)
      ensures ok == old(Value()).AwaitsRun()
    {
      ghost var was := Value();
      ghost var goal := was.ReportRun(results);
      ok := false;
      var i := 0;
      for n := 0 to |commands|
        invariant |commands| == |was.commands| && assignments == was.assignments && record == was.record
        invariant forall k | 0 <= k < |commands| :: commands[k] == if k < n then goal.commands[k] else was.commands[k]
        invariant i == |IssuedCommands(was.commands[..n])|
        invariant ok <==> i > 0
      {
        assert was.commands[..n + 1][..n] == was.commands[..n];
        var t := commands[n];
        if t.header.status.Issued? {
          ok := true;
          commands := commands[n := t.(header := t.header.Report(ResultAt(results, i)))];
          i := i + 1;
        }
      }
      assert was.commands[..|was.commands|] == was.commands;
      SomeIssued(was.commands);
    }

    /** Hands each issued give-away its result, by key; not ok means nobody was waiting. */
    method ReportGiveAway(now: Time, results: map<AssignmentKey, Result>) returns (ok: bool)
      modifies this
      ensures Value() == old(Value()).ReportGiveAway(now, results)
      ensures ok == old(Value()).AwaitsGiveAway()
      ensures |assignments| == |old(assignments)|
      ensures forall i | 0 <= i < |assignments| ::
                assignments[i].triedToMove
                == (old(assignments)[i].triedToMove
                    || (old(assignments)[i].header.status.Issued?
                        && !(assignments[i].Key() in results && results[assignments[i].Key()] == NotHere)))
    {
      ghost var was := Value();
      ghost var goal := was.ReportGiveAway(now, results);
      ok := false;
      for n := 0 to |assignments|
        invariant |assignments| == |was.assignments| && commands == was.commands && record == was.record
        invariant forall k | 0 <= k < |assignments| ::
                    assignments[k] == if k < n then goal.assignments[k] else was.assignments[k]
        invariant ok == exists k | 0 <= k < n :: was.assignments[k].header.status.Issued?
      {
        var t := assignments[n];
        if t.header.status.Issued? {
          ok := true;
          var reported := t.Key() in results;
          var notHere := reported && results[t.Key()].NotHere?;
          t := t.(triedToMove := t.triedToMove || !reported || !notHere);
          if !reported {
            t := t.(header := t.header.(status := Failed));
          } else if notHere {
            t := t.(header := t.header.(status := Done));
          } else if results[t.Key()].Failure? {
            t := t.(header := t.header.(status := Failed));
          } else if t.Key().kind == KIND_SCREEN {
            t := t.(header := t.header.(status := Done));
          } else {
            t := t.(header := t.header.(status := AwaitingArrival), sentAt := now);
          }
          if t.header.dropReason.Some? && !t.header.status.Done? {
            t := t.(header := t.header.(status := Dropped));
          }
          assignments := assignments[n := t];
        }
      }
    }

    /** Lets s overrule the tasks: stale ones go, and receipts complete theirs. */
    method ApplyState(s: ServerState, me: HostId)
      modifies this
      ensures Value() == old(Value()).ApplyState(s, me)
    {
      ghost var was := Value();
      var expired := record.CommandsExpired(s, me);
      if expired.Some? {
        for n := 0 to |commands|
          invariant |commands| == |was.commands| && assignments == was.assignments && record == was.record
          invariant forall k | 0 <= k < |commands| ::
                      commands[k] == if k < n then
                                       was.commands[k].(header := was.commands[k].header.Drop(expired.value))
                                     else was.commands[k]
        {
          commands := commands[n := commands[n].(header := commands[n].header.Drop(expired.value))];
        }
      }
      var current := AssignmentsByKey(s);
      DropExpiredAssignments(s, current);
      MarkArrived(current);
      assert Value() == was.ApplyState(s, me);
    }

    method DropExpiredAssignments(s: ServerState, current: map<AssignmentKey, Assignment>)
      modifies this
      ensures commands == old(commands) && record.ownership == old(record.ownership)
      ensures record.seqs == old(record.seqs) - NotLiveKeys(old(assignments), s, current)
      ensures |assignments| == |old(assignments)|
      ensures forall k | 0 <= k < |assignments| :: assignments[k] == old(assignments)[k].DropExpired(s, current)
    {
      ghost var was := assignments;
      for n := 0 to |assignments|
        invariant commands == old(commands) && record.ownership == old(record.ownership)
        invariant |assignments| == |was|
        invariant forall k | 0 <= k < |assignments| ::
                    assignments[k] == if k < n then was[k].DropExpired(s, current) else was[k]
        invariant record.seqs == old(record.seqs) - NotLiveKeys(was[..n], s, current)
      {
        var t := assignments[n];
        var key := t.Key();
        assert was[..n + 1] == was[..n] + [t];
        assert NotLiveKeys(was[..n + 1], s, current)
            == NotLiveKeys(was[..n], s, current) + if t.StopsNotLive(s, current) then {key} else {};
        if key !in current || current[key].seqno != t.assignment.seqno {
          assignments := assignments[n := t.(header := t.header.Drop(Replaced))];
        } else if !s.IsLive(t.assignment.assignee)
                  && !t.header.status.Issued? && !t.header.status.Done? && !t.header.status.Dropped? {
          assignments := assignments[n := t.(header := t.header.Drop(AssigneeNotLive))];
          record := record.(seqs := record.seqs - {key});
        }
      }
      assert was[..|was|] == was;
    }

    method MarkArrived(current: map<AssignmentKey, Assignment>)
      modifies this
      ensures commands == old(commands) && record == old(record)
      ensures |assignments| == |old(assignments)|
      ensures forall k | 0 <= k < |assignments| :: assignments[k] == old(assignments)[k].MarkArrived(current)
    {
      ghost var was := assignments;
      for n := 0 to |assignments|
        invariant commands == old(commands) && record == old(record)
        invariant |assignments| == |was|
        invariant forall k | 0 <= k < |assignments| ::
                    assignments[k] == if k < n then was[k].MarkArrived(current) else was[k]
      {
        var t := assignments[n];
        if t.header.status.AwaitingArrival? || t.header.status.Failed? {
          if t.Key() in current && current[t.Key()].seqno == t.assignment.seqno
             && current[t.Key()].kind == KIND_HID && current[t.Key()].arrived {
            assignments := assignments[n := t.(header := t.header.(status := Done))];
          }
        }
      }
    }
  }
}
