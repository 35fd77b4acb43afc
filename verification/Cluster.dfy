/** One server and any number of hosts, their steps interleaved in any order. */
module Cluster {
  import opened Options
  import opened State
  import opened Policy
  import opened Jobs
  import opened Deciding
  import opened DeciderInvariant
  import opened Coordinating
  import opened ServerHistory
  import opened Provenance
  import opened Restart
  import Waking

  /** Where a host's watcher is. Only the epoch of the state it sent last is compared. */
  datatype Phase =
    | Connecting
    | Sending(state: ServerState)
    | Polling(sent: ServerState)
    | Parked(sent: ServerState, broadcast: nat)
    | Rereading

  /** A host: its decider, the state its loop has yet to read, its watcher, its agent.json, and, in
      order, everything it gave away and the activation of every take it posted. */
  datatype Host = Host(m: DeciderState, clock: Time, channel: Option<ServerState>, phase: Phase,
                       disk: Option<AgentState>, given: seq<Assignment>, taken: seq<int>)
  {
    /** One observation taken from a channel and decided on at now. */
    function Decided(now: Time, o: Observation): Host
      requires m.WellFormed() && ValidObservation(o)
    {
      var (m', ds) := m.Decide(now, o);
      this.(m := m', clock := now, channel := if o.Seen? then None else channel,
            disk := DiskAfter(disk, ds), given := given + Given(ds), taken := taken + Activations(Commands(ds)))
    }
  }

  /** The activations the takes among the commands carry. */
  function Activations(cmds: seq<Command>): seq<int> {
    if cmds == [] then []
    else
      var c := cmds[|cmds| - 1];
      Activations(cmds[..|cmds| - 1])
      + if c.takeScreen != 0 then [c.takeScreen] else if c.takeHID != 0 then [c.takeHID] else []
  }

  // What the server has recorded, as the states list it.

  /** a is a recording of its name, perhaps arrived since. */
  ghost predicate InLog(t: Trace, a: Assignment) {
    && a.Key() in t.log
    && exists i :: 0 <= i < |t.log[a.Key()]| && SameRecording(t.log[a.Key()][i].assignment, a)
  }

  ghost function Logged(t: Trace): iset<Assignment> {
    iset a | InLog(t, a)
  }

  /** st shows what the server holds, the live hosts aside. */
  ghost predicate IsCurrent(s: Coordinator, st: ServerState) {
    && st.owner == s.owner && st.epoch == s.epoch && st.activation == s.activation
    && Lists(st.assignments, s.assignments)
  }

  ghost predicate Behind(s: Coordinator, a: Assignment) {
    a.Key() in s.assignments && a.seqno <= s.assignments[a.Key()].assignment.seqno
  }

  ghost predicate NotAhead(s: Coordinator, a: Assignment) {
    && Behind(s, a)
    && var b := s.assignments[a.Key()].assignment;
       a.seqno == b.seqno ==> SameRecording(a, b)
  }

  /** What holds of every state the server ever answered. */
  ghost predicate Known(t: Trace, st: ServerState) {
    && ValidState(st)
    && st.epoch <= t.s.epoch && (st.epoch == t.s.epoch ==> IsCurrent(t.s, st))
    && 0 <= st.activation < |t.owners| && t.owners[st.activation] == st.owner
    && (st.owner != "" ==> st.activation != 0)
    && (forall a | a in st.assignments :: InLog(t, a))
    && (forall a | a in st.assignments :: NotAhead(t.s, a))
  }

  lemma InLogStays(isPrint: char -> bool, t: Trace, r: Request, a: Assignment)
    requires TraceOk(t) && InLog(t, a)
    ensures InLog(Step(isPrint, t, r), a)
  {
    ApplyIsLater(isPrint, t.s, r);
    var key := a.Key();
    assert key in t.s.assignments;
    StepLogs(isPrint, t, r, key);
    var i :| 0 <= i < |t.log[key]| && SameRecording(t.log[key][i].assignment, a);
    assert Step(isPrint, t, r).log[key][i] == t.log[key][i];
  }

  lemma NotAheadStays(s: Coordinator, s': Coordinator, a: Assignment)
    requires Later(s, s') && NotAhead(s, a)
    ensures NotAhead(s', a)
  {
    assert StoredLater(s.assignments[a.Key()], s'.assignments[a.Key()]);
  }

  lemma KnownStays(isPrint: char -> bool, t: Trace, r: Request, st: ServerState)
    requires TraceOk(t) && Known(t, st)
    ensures Known(Step(isPrint, t, r), st)
  {
    var t' := Step(isPrint, t, r);
    ApplyIsLater(isPrint, t.s, r);
    StepKeepsOwners(isPrint, t, r);
    forall a | a in st.assignments
      ensures InLog(t', a) && NotAhead(t'.s, a)
    {
      InLogStays(isPrint, t, r, a);
      NotAheadStays(t.s, t'.s, a);
    }
  }

  lemma StoredIsLogged(t: Trace, key: AssignmentKey)
    requires TraceOk(t) && key in t.s.assignments
    ensures InLog(t, t.s.assignments[key].assignment) && key.Valid()
  {
    assert KeyOk(t, key, t.s.assignments[key], t.log[key]);
    assert SameRecording(t.log[key][|t.log[key]| - 1].assignment, t.s.assignments[key].assignment);
  }

  /** A state answered now is known. */
  lemma SnapshotIsKnown(t: Trace, now: Time, st: ServerState)
    requires TraceOk(t) && t.s.IsSnapshot(now, st)
    ensures Known(t, st)
  {
    forall a | a in st.assignments
      ensures InLog(t, a) && NotAhead(t.s, a) && a.Key().Valid()
    {
      StoredIsLogged(t, a.Key());
    }
  }

  /** A state answered now is later than any known before. */
  lemma SnapshotIsNewest(t: Trace, earlier: ServerState, now: Time, st: ServerState)
    requires TraceOk(t) && t.s.IsSnapshot(now, st) && Known(t, earlier)
    ensures ListedLater(earlier, st) && earlier.activation <= st.activation
  {
    forall a | a in earlier.assignments
      ensures exists c :: c in st.assignments && c.Key() == a.Key() && a.seqno <= c.seqno
                          && (a.seqno == c.seqno ==> SameRecording(a, c))
    {
      assert NotAhead(t.s, a);
      assert t.s.assignments[a.Key()].assignment in st.assignments;
    }
  }

  lemma {:induction false} RecordingsIncrease(t: Trace, recordings: seq<Stored>, i: nat, j: nat)
    requires RecordingsOk(t, recordings) && i < j < |recordings|
    ensures recordings[i].assignment.seqno < recordings[j].assignment.seqno
    decreases j
  {
    assert RecordingOk(t, recordings, j);
    if i < j - 1 {
      RecordingsIncrease(t, recordings, i, j - 1);
    }
  }

  /** The same take, the arrival aside. */
  ghost predicate SameTake(a: Assignment, b: Assignment) {
    a.(arrived := false) == b.(arrived := false)
  }

  /** A name and a seq name one recording: comparing seqs for equality is enough. */
  lemma KeyAndSeqNameOne(t: Trace, a: Assignment, b: Assignment)
    requires TraceOk(t) && InLog(t, a) && InLog(t, b) && a.Key() == b.Key() && a.seqno == b.seqno
    ensures SameTake(a, b)
  {
    var recordings := t.log[a.Key()];
    assert KeyOk(t, a.Key(), t.s.assignments[a.Key()], recordings);
    var i :| 0 <= i < |recordings| && SameRecording(recordings[i].assignment, a);
    var j :| 0 <= j < |recordings| && SameRecording(recordings[j].assignment, b);
    if i < j {
      RecordingsIncrease(t, recordings, i, j);
    } else if j < i {
      RecordingsIncrease(t, recordings, j, i);
    }
  }

  // What holds of every host.

  function Opt(st: Option<ServerState>): seq<ServerState> {
    if st.None? then [] else [st.value]
  }

  /** The states of a host, oldest first: the newest its decider saw, then those on their way. */
  function Ahead(h: Host): seq<ServerState> {
    Opt(h.m.latest) + Opt(h.channel) + if h.phase.Sending? then [h.phase.state] else []
  }

  ghost predicate Covers(a: Assignment, st: ServerState) {
    exists c :: c in st.assignments && c.Key() == a.Key() && a.seqno <= c.seqno
  }

  /** A known state, no older than anything given away. */
  ghost predicate StateOk(t: Trace, st: ServerState, given: seq<Assignment>) {
    Known(t, st) && forall a | a in given :: Covers(a, st)
  }

  ghost predicate Follows(earlier: ServerState, later: ServerState) {
    ListedLater(earlier, later) && earlier.activation <= later.activation
  }

  ghost predicate AheadOk(t: Trace, ahead: seq<ServerState>, given: seq<Assignment>) {
    && (forall i | 0 <= i < |ahead| :: StateOk(t, ahead[i], given))
    && (forall i, j | 0 <= i < j < |ahead| :: Follows(ahead[i], ahead[j]))
  }

  ghost predicate StillListed(st: ServerState, a: Assignment) {
    exists c :: c in st.assignments && c.Key() == a.Key() && c.seqno == a.seqno
  }

  ghost predicate NeverBack(given: seq<Assignment>) {
    forall i, j | 0 <= i < j < |given| && given[i].Key() == given[j].Key() :: given[i].seqno <= given[j].seqno
  }

  ghost predicate GivenOk(t: Trace, me: HostId, given: seq<Assignment>) {
    && (forall a | a in given :: InLog(t, a))
    && (forall a | a in given :: a.assignee != me)
    && (forall a | a in given :: Behind(t.s, a))
    && NeverBack(given)
  }

  /** Each take is under an activation the host owned under, none past any state on its way, and
      none goes back. */
  ghost predicate TakenOk(t: Trace, me: HostId, ahead: seq<ServerState>, taken: seq<int>) {
    && (forall x | x in taken :: 0 <= x < |t.owners| && t.owners[x] == me)
    && (forall i, x | 0 <= i < |ahead| && x in taken :: x <= ahead[i].activation)
    && (forall i, j | 0 <= i < j < |taken| :: taken[i] <= taken[j])
  }

  /** The state last sent to the loop waits in its channel, or is the newest the decider saw, or
      became its first record. */
  ghost predicate Pumped(h: Host, sent: ServerState) {
    if h.channel.Some? then h.channel.value == sent
    else h.m.latest == Some(sent) || (h.m.latest.None? && h.m.handled == Some(h.m.Adopted(sent)))
  }

  ghost predicate PhaseOk(t: Trace, h: Host) {
    match h.phase
    case Polling(sent) => Known(t, sent) && Pumped(h, sent)
    case Parked(sent, broadcast) =>
      && Known(t, sent) && Pumped(h, sent)
      && broadcast <= t.s.broadcast && (broadcast == t.s.broadcast ==> sent.epoch == t.s.epoch)
    case _ => true
  }

  ghost predicate HostOk(t: Trace, h: Host) {
    && Inv(h.m, h.clock) && h.m.cfg.id != "" && DiskMatches(h.m, h.disk)
    && (h.m.job.None? && h.m.latest.Some? ==> Waking.NothingLeft(h.m, h.clock))
    && From(h.m, Logged(t))
    && PhaseOk(t, h)
    && AheadOk(t, Ahead(h), h.given)
    && GivenOk(t, h.m.cfg.id, h.given)
    && TakenOk(t, h.m.cfg.id, Ahead(h), h.taken)
  }

  // Each step keeps it.

  lemma AheadStays(isPrint: char -> bool, t: Trace, r: Request, ahead: seq<ServerState>, given: seq<Assignment>)
    requires TraceOk(t) && AheadOk(t, ahead, given)
    ensures AheadOk(Step(isPrint, t, r), ahead, given)
  {
    forall i | 0 <= i < |ahead|
      ensures StateOk(Step(isPrint, t, r), ahead[i], given)
    {
      assert StateOk(t, ahead[i], given);
      KnownStays(isPrint, t, r, ahead[i]);
    }
  }

  lemma GivenStays(isPrint: char -> bool, t: Trace, r: Request, me: HostId, given: seq<Assignment>)
    requires TraceOk(t) && GivenOk(t, me, given)
    ensures GivenOk(Step(isPrint, t, r), me, given)
  {
    var t' := Step(isPrint, t, r);
    ApplyIsLater(isPrint, t.s, r);
    forall a | a in given
      ensures InLog(t', a) && Behind(t'.s, a)
    {
      InLogStays(isPrint, t, r, a);
      assert StoredLater(t.s.assignments[a.Key()], t'.s.assignments[a.Key()]);
    }
  }

  lemma PhaseStays(isPrint: char -> bool, t: Trace, r: Request, h: Host)
    requires TraceOk(t) && PhaseOk(t, h)
    ensures PhaseOk(Step(isPrint, t, r), h)
  {
    ApplyIsLater(isPrint, t.s, r);
    if h.phase.Polling? || h.phase.Parked? {
      KnownStays(isPrint, t, r, h.phase.sent);
    }
  }

  lemma FromStays(isPrint: char -> bool, t: Trace, r: Request, m: DeciderState)
    requires TraceOk(t) && From(m, Logged(t))
    ensures From(m, Logged(Step(isPrint, t, r)))
  {
    forall a | a in Logged(t)
      ensures a in Logged(Step(isPrint, t, r))
    {
      InLogStays(isPrint, t, r, a);
    }
  }

  lemma TakenStays(isPrint: char -> bool, t: Trace, r: Request, me: HostId, ahead: seq<ServerState>, taken: seq<int>)
    requires TraceOk(t) && TakenOk(t, me, ahead, taken)
    ensures TakenOk(Step(isPrint, t, r), me, ahead, taken)
  {
    StepKeepsOwners(isPrint, t, r);
  }

  /** A request to the server, anyone's, disturbs no host. */
  lemma RequestKeepsHost(isPrint: char -> bool, t: Trace, r: Request, h: Host)
    requires TraceOk(t) && HostOk(t, h)
    ensures HostOk(Step(isPrint, t, r), h)
  {
    FromStays(isPrint, t, r, h.m);
    PhaseStays(isPrint, t, r, h);
    AheadStays(isPrint, t, r, Ahead(h), h.given);
    GivenStays(isPrint, t, r, h.m.cfg.id, h.given);
    TakenStays(isPrint, t, r, h.m.cfg.id, Ahead(h), h.taken);
  }

  /** Forgetting states on their way keeps the rest in order. */
  lemma SubAheadOk(t: Trace, ahead: seq<ServerState>, given: seq<Assignment>, lo: nat, hi: nat)
    requires AheadOk(t, ahead, given) && lo <= hi <= |ahead|
    ensures AheadOk(t, ahead[lo..hi], given)
  {
  }

  lemma SnapshotCovers(s: Coordinator, now: Time, st: ServerState, a: Assignment)
    requires Keyed(s.assignments) && s.IsSnapshot(now, st) && Behind(s, a)
    ensures Covers(a, st)
  {
    var c := s.assignments[a.Key()].assignment;
    assert c in st.assignments && c.Key() == a.Key();
  }

  lemma NewestOnItsWay(t: Trace, ahead: seq<ServerState>, me: HostId, given: seq<Assignment>,
                       now: Time, st: ServerState)
    requires TraceOk(t) && t.s.IsSnapshot(now, st) && AheadOk(t, ahead, given) && GivenOk(t, me, given)
    ensures AheadOk(t, ahead + [st], given)
  {
    SnapshotIsKnown(t, now, st);
    forall a | a in given
      ensures Covers(a, st)
    {
      SnapshotCovers(t.s, now, st, a);
    }
    forall i | 0 <= i < |ahead|
      ensures Follows(ahead[i], st)
    {
      assert StateOk(t, ahead[i], given);
      SnapshotIsNewest(t, ahead[i], now, st);
    }
  }

  lemma TakenBeforeNewest(t: Trace, ahead: seq<ServerState>, me: HostId, taken: seq<int>, now: Time, st: ServerState)
    requires TraceOk(t) && t.s.IsSnapshot(now, st) && TakenOk(t, me, ahead, taken)
    ensures TakenOk(t, me, ahead + [st], taken)
  {
  }

  lemma SubTakenOk(t: Trace, me: HostId, ahead: seq<ServerState>, taken: seq<int>, lo: nat, hi: nat)
    requires TakenOk(t, me, ahead, taken) && lo <= hi <= |ahead|
    ensures TakenOk(t, me, ahead[lo..hi], taken)
  {
  }

  /** The watcher's /state is answered: the state is the newest on its way. */
  lemma AnswerKeepsHost(t: Trace, h: Host, now: Time, st: ServerState)
    requires TraceOk(t) && HostOk(t, h) && t.s.IsSnapshot(now, st) && (h.phase.Connecting? || h.phase.Rereading?)
    ensures HostOk(t, h.(phase := Sending(st)))
  {
    NewestOnItsWay(t, Ahead(h), h.m.cfg.id, h.given, now, st);
    TakenBeforeNewest(t, Ahead(h), h.m.cfg.id, h.taken, now, st);
    assert Ahead(h.(phase := Sending(st))) == Ahead(h) + [st];
  }

  /** Other moves of the watcher keep the states in order. */
  lemma MoveKeepsHost(t: Trace, h: Host, h': Host, hi: nat)
    requires HostOk(t, h) && h' == h.(phase := h'.phase, channel := h'.channel) && PhaseOk(t, h')
    requires hi <= |Ahead(h)| && Ahead(h') == Ahead(h)[0..hi]
    ensures HostOk(t, h')
  {
    SubAheadOk(t, Ahead(h), h.given, 0, hi);
    SubTakenOk(t, h.m.cfg.id, Ahead(h), h.taken, 0, hi);
  }

  lemma SendKeepsHost(t: Trace, h: Host)
    requires HostOk(t, h) && h.phase.Sending? && h.channel.None?
    ensures HostOk(t, h.(phase := Polling(h.phase.state), channel := Some(h.phase.state)))
  {
    var h' := h.(phase := Polling(h.phase.state), channel := Some(h.phase.state));
    assert Ahead(h)[|Ahead(h)| - 1] == h.phase.state;
    assert Ahead(h') == Ahead(h)[0..|Ahead(h)|];
    MoveKeepsHost(t, h, h', |Ahead(h)|);
  }

  /** The states ahead of a decided host are those it had, the oldest perhaps dropped. */
  lemma DecidedAhead(h: Host, now: Time, o: Observation)
    requires h.m.WellFormed() && ValidObservation(o) && (o.Seen? ==> h.channel == Some(o.state))
    ensures var ahead := Ahead(h.Decided(now, o));
            ahead == Ahead(h) || (Ahead(h) != [] && ahead == Ahead(h)[1..])
    ensures var h' := h.Decided(now, o);
            h'.m.latest.Some? ==> Ahead(h') != [] && h'.m.latest.value == Ahead(h')[0]
  {
    DecideLatest(h.m, now, o);
    var h' := h.Decided(now, o);
    if o.Seen? {
      if h.m.latest.Some? || h.m.handled.None? {
        assert Ahead(h') == Ahead(h)[1..];
      } else {
        assert Ahead(h') == Ahead(h);
      }
    }
  }

  lemma OnlyOneListed(st: ServerState, a: Assignment, b: Assignment)
    requires DistinctKeys(st.assignments) && a in st.assignments && b in st.assignments && a.Key() == b.Key()
    ensures a == b
  {
  }

  /** What is given away under the newest state is no older than anything given before. */
  lemma NewIsNotBack(latest: ServerState, given: seq<Assignment>, added: seq<Assignment>)
    requires DistinctKeys(latest.assignments) && NeverBack(given)
    requires forall a | a in given :: Covers(a, latest)
    requires forall a | a in added :: StillListed(latest, a)
    ensures NeverBack(given + added)
  {
    var all := given + added;
    forall i, j | 0 <= i < j < |all| && all[i].Key() == all[j].Key()
      ensures all[i].seqno <= all[j].seqno
    {
      if j >= |given| {
        assert all[j] in added;
        var c :| c in latest.assignments && c.Key() == all[j].Key() && c.seqno == all[j].seqno;
        if i < |given| {
          assert all[i] in given;
          var b :| b in latest.assignments && b.Key() == all[i].Key() && all[i].seqno <= b.seqno;
          OnlyOneListed(latest, b, c);
        } else {
          assert all[i] in added;
          var b :| b in latest.assignments && b.Key() == all[i].Key() && b.seqno == all[i].seqno;
          OnlyOneListed(latest, b, c);
        }
      }
    }
  }

  lemma NewIsCovered(t: Trace, ahead: seq<ServerState>, given: seq<Assignment>, a: Assignment)
    requires AheadOk(t, ahead, given) && ahead != []
    requires StillListed(ahead[0], a)
    ensures Behind(t.s, a)
    ensures forall i | 0 <= i < |ahead| :: Covers(a, ahead[i])
  {
    var c :| c in ahead[0].assignments && c.Key() == a.Key() && c.seqno == a.seqno;
    assert StateOk(t, ahead[0], given) && NotAhead(t.s, c);
    forall i | 0 <= i < |ahead|
      ensures Covers(a, ahead[i])
    {
      if i > 0 {
        assert Follows(ahead[0], ahead[i]);
      }
    }
  }

  lemma GivenGrows(t: Trace, me: HostId, ahead: seq<ServerState>, given: seq<Assignment>, added: seq<Assignment>)
    requires AheadOk(t, ahead, given) && GivenOk(t, me, given) && (added != [] ==> ahead != [])
    requires forall a | a in added :: InLog(t, a) && a.assignee != me
    requires forall a | a in added :: StillListed(ahead[0], a)
    ensures AheadOk(t, ahead, given + added) && GivenOk(t, me, given + added)
  {
    if added == [] {
      assert given + added == given;
    } else {
      forall a | a in added
        ensures Behind(t.s, a) && forall i | 0 <= i < |ahead| :: Covers(a, ahead[i])
      {
        NewIsCovered(t, ahead, given, a);
      }
      assert StateOk(t, ahead[0], given);
      NewIsNotBack(ahead[0], given, added);
      forall i | 0 <= i < |ahead|
        ensures StateOk(t, ahead[i], given + added)
      {
        assert StateOk(t, ahead[i], given);
      }
    }
  }

  lemma DecideKeepsPhase(t: Trace, h: Host, now: Time, o: Observation)
    requires Inv(h.m, h.clock) && ValidObservation(o) && PhaseOk(t, h) && (o.Seen? ==> h.channel == Some(o.state))
    ensures PhaseOk(t, h.Decided(now, o))
  {
    DecideLatest(h.m, now, o);
    if h.m.latest.None? {
      DecideUnstarted(h.m, now, o);
    }
  }

  lemma {:induction false} ActivationsAre(cmds: seq<Command>)
    ensures forall x | x in Activations(cmds) ::
              x != 0 && exists c :: c in cmds && (c.takeScreen == x || c.takeHID == x)
  {
    if cmds != [] {
      var init, c := cmds[..|cmds| - 1], cmds[|cmds| - 1];
      ActivationsAre(init);
      assert cmds == init + [c];
    }
  }

  /** Each take of a decision is under the newest state's activation, this host its owner. */
  lemma DecideTakes(m: DeciderState, before: Time, now: Time, o: Observation)
    requires Inv(m, before) && before <= now && ValidObservation(o)
    ensures var (m', ds) := m.Decide(now, o);
            Activations(Commands(ds)) != [] ==>
              && m'.latest.Some? && m'.latest.value.owner == m.cfg.id
              && forall x | x in Activations(Commands(ds)) :: x == m'.latest.value.activation
  {
    DecideLatest(m, now, o);
    DecidedIsAllowed(m, before, now, o);
    var (m', ds) := m.Decide(now, o);
    ActivationsAre(Commands(ds));
    if Activations(Commands(ds)) != [] {
      assert Activations(Commands(ds))[0] in Activations(Commands(ds));
    }
    forall x | x in Activations(Commands(ds))
      ensures m'.latest.Some? && m'.latest.value.owner == m.cfg.id && x == m'.latest.value.activation
    {
      var c :| c in Commands(ds) && (c.takeScreen == x || c.takeHID == x);
      assert RunAllowed(m', c);
    }
  }

  lemma TakenGrows(t: Trace, me: HostId, ahead: seq<ServerState>, taken: seq<int>, added: seq<int>,
                   given: seq<Assignment>)
    requires TakenOk(t, me, ahead, taken) && AheadOk(t, ahead, given) && (added != [] ==> ahead != [])
    requires forall x | x in added :: x == ahead[0].activation && ahead[0].owner == me
    ensures TakenOk(t, me, ahead, taken + added)
  {
    if added != [] {
      assert added[0] in added && StateOk(t, ahead[0], given);
      forall i | 0 <= i < |ahead|
        ensures ahead[0].activation <= ahead[i].activation
      {
        assert i > 0 ==> Follows(ahead[0], ahead[i]);
      }
      var all := taken + added;
      forall i, j | 0 <= i < j < |all|
        ensures all[i] <= all[j]
      {
        assert all[i] in taken || all[i] in added;
        assert j >= |taken| ==> all[j] in added;
      }
    } else {
      assert taken + added == taken;
    }
  }

  lemma AheadAndTakenGrow(t: Trace, me: HostId, ahead: seq<ServerState>, ahead': seq<ServerState>,
                          given: seq<Assignment>, taken: seq<int>, added: seq<int>)
    requires TakenOk(t, me, ahead, taken) && AheadOk(t, ahead', given)
    requires ahead' == ahead || (ahead != [] && ahead' == ahead[1..])
    requires added != [] ==> ahead' != []
    requires forall x | x in added :: x == ahead'[0].activation && ahead'[0].owner == me
    ensures TakenOk(t, me, ahead', taken + added)
  {
    assert ahead' == ahead[|ahead| - |ahead'|..|ahead|];
    SubTakenOk(t, me, ahead, taken, |ahead| - |ahead'|, |ahead|);
    TakenGrows(t, me, ahead', taken, added, given);
  }

  /** What a decision takes is under the oldest state on its way, just become the newest seen. */
  lemma DecideTakesAhead(h: Host, now: Time, o: Observation)
    requires Inv(h.m, h.clock) && h.clock <= now && ValidObservation(o) && (o.Seen? ==> h.channel == Some(o.state))
    ensures var ahead, added := Ahead(h.Decided(now, o)), Activations(Commands(h.m.Decide(now, o).1));
            added != [] ==>
              && ahead != [] && ahead[0].owner == h.m.cfg.id
              && forall x | x in added :: x == ahead[0].activation
  {
    DecideTakes(h.m, h.clock, now, o);
    DecidedAhead(h, now, o);
  }

  lemma DecideKeepsTaken(t: Trace, h: Host, now: Time, o: Observation, ahead: seq<ServerState>, given: seq<Assignment>)
    requires Inv(h.m, h.clock) && TakenOk(t, h.m.cfg.id, Ahead(h), h.taken)
    requires h.clock <= now && ValidObservation(o) && (o.Seen? ==> h.channel == Some(o.state))
    requires ahead == Ahead(h.Decided(now, o)) && AheadOk(t, ahead, given)
    ensures TakenOk(t, h.m.cfg.id, ahead, h.Decided(now, o).taken)
  {
    DecideTakesAhead(h, now, o);
    DecidedAhead(h, now, o);
    AheadAndTakenGrow(t, h.m.cfg.id, Ahead(h), ahead, given, h.taken, Activations(Commands(h.m.Decide(now, o).1)));
  }

  /** A state on its way is one the decider may observe. */
  lemma AheadIsKnownState(t: Trace, h: Host, st: ServerState)
    requires AheadOk(t, Ahead(h), h.given) && h.m.cfg.id != "" && h.channel == Some(st)
    ensures KnownState(h.m.cfg.id, st, Logged(t))
  {
    assert Ahead(h)[|Opt(h.m.latest)|] == st;
    assert StateOk(t, Ahead(h)[|Opt(h.m.latest)|], h.given);
  }

  lemma DecideGivesListed(t: Trace, h: Host, now: Time, o: Observation)
    requires HostOk(t, h) && h.clock <= now && ValidObservation(o) && (o.Seen? ==> h.channel == Some(o.state))
    ensures var (m', ds) := h.m.Decide(now, o);
            && Inv(m', now) && From(m', Logged(t))
            && (Given(ds) != [] ==> m'.latest.Some?)
            && (forall a | a in Given(ds) :: InLog(t, a) && a.assignee != h.m.cfg.id && StillListed(m'.latest.value, a))
  {
    if o.Seen? {
      AheadIsKnownState(t, h, o.state);
    }
    DecideLatest(h.m, now, o);
    DecideGives(h.m, h.clock, now, o, Logged(t));
    var (m', ds) := h.m.Decide(now, o);
    if Given(ds) != [] {
      assert Given(ds)[0] in Given(ds);
    }
    forall a | a in Given(ds)
      ensures InLog(t, a) && a.assignee != h.m.cfg.id && StillListed(m'.latest.value, a)
    {
      assert GiveAwayAllowed(m', now, a);
    }
  }

  lemma AheadAndGivenGrow(t: Trace, me: HostId, ahead: seq<ServerState>, ahead': seq<ServerState>,
                          given: seq<Assignment>, added: seq<Assignment>)
    requires AheadOk(t, ahead, given) && GivenOk(t, me, given)
    requires ahead' == ahead || (ahead != [] && ahead' == ahead[1..])
    requires added != [] ==> ahead' != []
    requires forall a | a in added :: InLog(t, a) && a.assignee != me && StillListed(ahead'[0], a)
    ensures AheadOk(t, ahead', given + added) && GivenOk(t, me, given + added)
  {
    assert ahead' == ahead[|ahead| - |ahead'|..|ahead|];
    SubAheadOk(t, ahead, given, |ahead| - |ahead'|, |ahead|);
    GivenGrows(t, me, ahead', given, added);
  }

  lemma DecideKeepsGiven(t: Trace, h: Host, now: Time, o: Observation)
    requires HostOk(t, h) && h.clock <= now && ValidObservation(o) && (o.Seen? ==> h.channel == Some(o.state))
    ensures var h' := h.Decided(now, o);
            AheadOk(t, Ahead(h'), h'.given) && GivenOk(t, h.m.cfg.id, h'.given)
  {
    DecideGivesListed(t, h, now, o);
    DecidedAhead(h, now, o);
    AheadAndGivenGrow(t, h.m.cfg.id, Ahead(h), Ahead(h.Decided(now, o)), h.given, Given(h.m.Decide(now, o).1));
  }

  /** A decision on what a host observes keeps it sound. */
  lemma DecideKeepsHost(t: Trace, h: Host, now: Time, o: Observation)
    requires HostOk(t, h) && h.clock <= now && ValidObservation(o) && (o.Seen? ==> h.channel == Some(o.state))
    ensures HostOk(t, h.Decided(now, o)) && h.Decided(now, o).m.cfg == h.m.cfg
  {
    DecideLatest(h.m, now, o);
    DecideGivesListed(t, h, now, o);
    DecideKeepsGiven(t, h, now, o);
    DecideKeepsTaken(t, h, now, o, Ahead(h.Decided(now, o)), h.Decided(now, o).given);
    DecideKeepsPhase(t, h, now, o);
    DecideKeepsDisk(h.m, now, o, h.disk);
    Waking.IdleMeansNothingLeft(h.m, h.clock, now, o);
  }

  /** A restart of a host's process loses nothing of its record. */
  lemma RestartKeepsHost(t: Trace, h: Host, cfg: Config, handled: Option<Handled>)
    requires HostOk(t, h) && cfg.Valid() && cfg.id == h.m.cfg.id && StartsFrom(h.disk, handled)
    ensures handled == h.m.handled
    ensures HostOk(t, h.(m := Started(cfg, handled), channel := None, phase := Connecting))
  {
    if h.m.handled.Some? {
      RestoresPersisted(h.m.handled.value);
    }
    var h' := h.(m := Started(cfg, handled), channel := None, phase := Connecting);
    StartedIsOk(cfg, handled, h.clock);
    assert Ahead(h') == Ahead(h)[0..0];
    SubAheadOk(t, Ahead(h), h.given, 0, 0);
    SubTakenOk(t, h.m.cfg.id, Ahead(h), h.taken, 0, 0);
  }

  // The whole system.

  /** handlers holds one entry per /wait the server is serving. */
  datatype System = System(t: Trace, hosts: map<HostId, Host>, handlers: multiset<HostId>)

  datatype Event =
    | Requested(r: Request)
    | StateAnswered(id: HostId, now: Time, st: ServerState)
    | StateSent(id: HostId)
    | WaitReceived(id: HostId)
    | WaitAnswered(id: HostId)
    | WaitTimedOut(id: HostId)
    | SessionFailed(id: HostId)
    | Observed(id: HostId, now: Time, o: Observation)
    | GenerationEnded(id: HostId)
    | HostRestarted(id: HostId, cfg: Config, handled: Option<Handled>)

  /** The request this event makes of the server, if any. */
  function RequestOf(c: System, e: Event): Option<Request> {
    match e
    case Requested(r) => Some(r)
    case StateAnswered(id, now, st) => Some(ReadState(now))
    case WaitReceived(id) =>
      if id in c.hosts && c.hosts[id].phase.Polling? && c.hosts[id].phase.sent.epoch == c.t.s.epoch
      then Some(Register(id)) else None
    case _ => None
  }

  ghost predicate Enabled(c: System, e: Event) {
    match e
    case Requested(r) => r.Deregister? ==> r.id in c.handlers
    case StateAnswered(id, now, st) =>
      && id in c.hosts && (c.hosts[id].phase.Connecting? || c.hosts[id].phase.Rereading?)
      && c.t.s.IsSnapshot(now, st)
    case StateSent(id) => id in c.hosts && c.hosts[id].phase.Sending? && c.hosts[id].channel.None?
    case WaitReceived(id) => id in c.hosts && c.hosts[id].phase.Polling?
    case WaitAnswered(id) =>
      id in c.hosts && c.hosts[id].phase.Parked? && c.hosts[id].phase.broadcast != c.t.s.broadcast
    case WaitTimedOut(id) => id in c.hosts && c.hosts[id].phase.Parked?
    case SessionFailed(id) => id in c.hosts && !c.hosts[id].phase.Sending?
    case Observed(id, now, o) =>
      && id in c.hosts && c.hosts[id].clock <= now && ValidObservation(o)
      && c.hosts[id].m.WellFormed()
      && (o.Seen? ==> c.hosts[id].channel == Some(o.state))
    case GenerationEnded(id) => id in c.hosts
    case HostRestarted(id, cfg, handled) =>
      id in c.hosts && cfg.Valid() && cfg.id == id && StartsFrom(c.hosts[id].disk, handled)
  }

  ghost function HostAfter(c: System, e: Event, h: Host): Host
    requires Enabled(c, e) && !e.Requested? && h == c.hosts[e.id]
  {
    match e
    case StateAnswered(id, now, st) => h.(phase := Sending(st))
    case StateSent(id) => h.(phase := Polling(h.phase.state), channel := Some(h.phase.state))
    case WaitReceived(id) =>
      h.(phase := if h.phase.sent.epoch == c.t.s.epoch then Parked(h.phase.sent, c.t.s.broadcast) else Rereading)
    case WaitAnswered(id) => h.(phase := Rereading)
    case WaitTimedOut(id) => h.(phase := Polling(h.phase.sent))
    case SessionFailed(id) => h.(phase := Connecting)
    case Observed(id, now, o) => h.Decided(now, o)
    case GenerationEnded(id) => h.(phase := Connecting, channel := None)
    case HostRestarted(id, cfg, handled) => h.(m := Started(cfg, handled), phase := Connecting, channel := None)
  }

  function HandlersAfter(handlers: multiset<HostId>, r: Option<Request>): multiset<HostId> {
    match r
    case Some(Register(id)) => handlers + multiset{id}
    case Some(Deregister(id, now)) => handlers - multiset{id}
    case Some(Restart) => multiset{}
    case _ => handlers
  }

  ghost function Next(isPrint: char -> bool, c: System, e: Event): System
    requires Enabled(c, e)
  {
    var r := RequestOf(c, e);
    System(if r.Some? then Step(isPrint, c.t, r.value) else c.t,
           if e.Requested? then c.hosts else c.hosts[e.id := HostAfter(c, e, c.hosts[e.id])],
           HandlersAfter(c.handlers, r))
  }

  /** The server's count of each host's waits is the number of /wait it serves for it. */
  ghost predicate Counted(s: Coordinator, handlers: multiset<HostId>) {
    forall id :: (id in s.waiters <==> id in handlers) && (id in s.waiters ==> s.waiters[id] == handlers[id])
  }

  ghost predicate SystemOk(c: System) {
    && TraceOk(c.t)
    && Counted(c.t.s, c.handlers)
    && forall id | id in c.hosts :: c.hosts[id].m.cfg.id == id && HostOk(c.t, c.hosts[id])
  }

  lemma NextKeepsCount(isPrint: char -> bool, s: Coordinator, handlers: multiset<HostId>, r: Request)
    requires Counted(s, handlers) && (r.Deregister? ==> r.id in handlers)
    ensures Counted(Apply(isPrint, s, r), HandlersAfter(handlers, Some(r)))
  {
  }

  lemma NextKeepsOthers(isPrint: char -> bool, c: System, e: Event, h: Host)
    requires TraceOk(c.t) && Enabled(c, e) && HostOk(c.t, h)
    ensures TraceOk(Next(isPrint, c, e).t) && HostOk(Next(isPrint, c, e).t, h)
  {
    var r := RequestOf(c, e);
    if r.Some? {
      ServerHistory.StepKeeps(isPrint, c.t, r.value);
      RequestKeepsHost(isPrint, c.t, r.value, h);
    }
  }

  lemma WatcherMoveIsOk(t: Trace, h: Host, phase: Phase)
    requires HostOk(t, h) && !h.phase.Sending?
    requires match phase
             case Connecting => true
             case Rereading => true
             case Polling(sent) => h.phase.Parked? && h.phase.sent == sent
             case Parked(sent, broadcast) =>
               h.phase == Polling(sent) && sent.epoch == t.s.epoch && broadcast == t.s.broadcast
             case _ => false
    ensures HostOk(t, h.(phase := phase))
  {
    var h' := h.(phase := phase);
    assert Ahead(h') == Ahead(h)[0..|Ahead(h)|];
    MoveKeepsHost(t, h, h', |Ahead(h)|);
  }

  lemma GenerationEndIsOk(t: Trace, h: Host)
    requires HostOk(t, h)
    ensures HostOk(t, h.(phase := Connecting, channel := None))
  {
    var h' := h.(phase := Connecting, channel := None);
    assert Ahead(h') == Ahead(h)[0..|Opt(h.m.latest)|];
    MoveKeepsHost(t, h, h', |Opt(h.m.latest)|);
  }

  /** A host's own step, before the server's part of it. */
  lemma HostAfterIsOk(c: System, e: Event)
    requires TraceOk(c.t) && Enabled(c, e) && !e.Requested?
    requires c.hosts[e.id].m.cfg.id == e.id && HostOk(c.t, c.hosts[e.id])
    ensures var h' := HostAfter(c, e, c.hosts[e.id]);
            h'.m.cfg.id == e.id && HostOk(c.t, h')
  {
    var h := c.hosts[e.id];
    if e.StateAnswered? {
      AnswerKeepsHost(c.t, h, e.now, e.st);
    } else if e.StateSent? {
      SendKeepsHost(c.t, h);
    } else if e.Observed? {
      DecideKeepsHost(c.t, h, e.now, e.o);
    } else if e.HostRestarted? {
      RestartKeepsHost(c.t, h, e.cfg, e.handled);
    } else if e.GenerationEnded? {
      GenerationEndIsOk(c.t, h);
    } else {
      WatcherMoveIsOk(c.t, h, HostAfter(c, e, h).phase);
    }
  }

  lemma NextKeepsOwnHost(isPrint: char -> bool, c: System, e: Event)
    requires TraceOk(c.t) && Enabled(c, e) && !e.Requested?
    requires c.hosts[e.id].m.cfg.id == e.id && HostOk(c.t, c.hosts[e.id])
    ensures var c' := Next(isPrint, c, e);
            c'.hosts[e.id].m.cfg.id == e.id && HostOk(c'.t, c'.hosts[e.id])
  {
    HostAfterIsOk(c, e);
    NextKeepsOthers(isPrint, c, e, HostAfter(c, e, c.hosts[e.id]));
  }

  lemma NextKeepsHost(isPrint: char -> bool, c: System, e: Event, id: HostId)
    requires TraceOk(c.t) && Enabled(c, e) && id in c.hosts
    requires c.hosts[id].m.cfg.id == id && HostOk(c.t, c.hosts[id])
    ensures var c' := Next(isPrint, c, e);
            id in c'.hosts && c'.hosts[id].m.cfg.id == id && HostOk(c'.t, c'.hosts[id])
  {
    if !e.Requested? && id == e.id {
      NextKeepsOwnHost(isPrint, c, e);
    } else {
      NextKeepsOthers(isPrint, c, e, c.hosts[id]);
    }
  }

  lemma NextKeepsServer(isPrint: char -> bool, c: System, e: Event)
    requires TraceOk(c.t) && Counted(c.t.s, c.handlers) && Enabled(c, e)
    ensures var c' := Next(isPrint, c, e);
            TraceOk(c'.t) && Counted(c'.t.s, c'.handlers) && c'.hosts.Keys == c.hosts.Keys
  {
    var r := RequestOf(c, e);
    if r.Some? {
      NextKeepsCount(isPrint, c.t.s, c.handlers, r.value);
      ServerHistory.StepKeeps(isPrint, c.t, r.value);
    }
  }

  lemma NextKeeps(isPrint: char -> bool, c: System, e: Event)
    requires SystemOk(c) && Enabled(c, e)
    ensures SystemOk(Next(isPrint, c, e))
  {
    NextKeepsServer(isPrint, c, e);
    forall id | id in c.hosts {
      NextKeepsHost(isPrint, c, e, id);
    }
  }

  /** Before anything happened: a fresh server, each host's decider started from its agent.json. */
  ghost predicate Initial(c: System) {
    && c.t == START && c.handlers == multiset{}
    && forall id | id in c.hosts ::
         var h := c.hosts[id];
         && id != "" && h.m.cfg.id == id && h.m.cfg.Valid()
         && StartsFrom(h.disk, h.m.handled) && h.m == Started(h.m.cfg, h.m.handled)
         && h.channel.None? && h.phase == Connecting && h.given == [] && h.taken == []
  }

  lemma InitialIsOk(c: System)
    requires Initial(c)
    ensures SystemOk(c)
  {
    forall id | id in c.hosts
      ensures HostOk(c.t, c.hosts[id])
    {
      var h := c.hosts[id];
      if h.disk.Some? {
        PersistsRestored(h.disk.value);
      }
      StartedIsOk(h.m.cfg, h.m.handled, h.clock);
      assert Ahead(h) == [];
    }
  }

  /** c' is reached from c by some interleaving of events. */
  ghost predicate Run(isPrint: char -> bool, c: System, events: seq<Event>, c': System)
    decreases |events|
  {
    if events == [] then c' == c
    else Enabled(c, events[0]) && Run(isPrint, Next(isPrint, c, events[0]), events[1..], c')
  }

  lemma {:induction false} RunKeeps(isPrint: char -> bool, c: System, events: seq<Event>, c': System)
    requires SystemOk(c) && Run(isPrint, c, events, c')
    ensures SystemOk(c')
    decreases |events|
  {
    if events != [] {
      NextKeeps(isPrint, c, events[0]);
      RunKeeps(isPrint, Next(isPrint, c, events[0]), events[1..], c');
    }
  }

  // Over every interleaving.

  /** a was recorded under an activation whose owner was its assignee. */
  ghost predicate TakenByOwner(t: Trace, a: Assignment) {
    exists activation :: 1 <= activation < |t.owners| && t.owners[activation] == a.assignee
                         && RecordedUnder(t, a, activation)
  }

  ghost predicate RecordedUnder(t: Trace, a: Assignment, activation: int) {
    && a.Key() in t.log
    && exists i :: 0 <= i < |t.log[a.Key()]| && t.log[a.Key()][i].activation == activation
                   && SameRecording(t.log[a.Key()][i].assignment, a)
  }

  lemma LoggedIsTakenByOwner(t: Trace, a: Assignment)
    requires TraceOk(t) && InLog(t, a)
    ensures TakenByOwner(t, a)
  {
    var recordings := t.log[a.Key()];
    assert KeyOk(t, a.Key(), t.s.assignments[a.Key()], recordings);
    var i :| 0 <= i < |recordings| && SameRecording(recordings[i].assignment, a);
    assert RecordingOk(t, recordings, i);
    assert RecordedUnder(t, a, recordings[i].activation);
  }

  lemma GivenIsOneTake(t: Trace, me: HostId, given: seq<Assignment>, i: nat, j: nat)
    requires TraceOk(t) && GivenOk(t, me, given) && i < j < |given| && given[i].Key() == given[j].Key()
    ensures given[i].seqno <= given[j].seqno
    ensures given[i].seqno == given[j].seqno ==> SameTake(given[i], given[j])
  {
    assert given[i] in given && given[j] in given;
    if given[i].seqno == given[j].seqno {
      KeyAndSeqNameOne(t, given[i], given[j]);
    }
  }

  lemma GivenIsOk(isPrint: char -> bool, c: System, events: seq<Event>, c': System, id: HostId)
    requires Initial(c) && Run(isPrint, c, events, c') && id in c'.hosts
    ensures TraceOk(c'.t) && GivenOk(c'.t, id, c'.hosts[id].given)
  {
    InitialIsOk(c);
    RunKeeps(isPrint, c, events, c');
  }

  /** No host acts on an older take after a newer one: what it gives away of one name never goes
      back in seq, restarts included, and at one seq it is one take; each was recorded by the
      host it goes to, while that host owned. */
  lemma GiveAwaysNeverGoBack(isPrint: char -> bool, c: System, events: seq<Event>, c': System, id: HostId)
    requires Initial(c) && Run(isPrint, c, events, c') && id in c'.hosts
    ensures var given := c'.hosts[id].given;
            && (forall i, j | 0 <= i < j < |given| && given[i].Key() == given[j].Key() ::
                  && given[i].seqno <= given[j].seqno
                  && (given[i].seqno == given[j].seqno ==> SameTake(given[i], given[j])))
            && (forall a | a in given :: a.assignee != id && TakenByOwner(c'.t, a))
  {
    GivenIsOk(isPrint, c, events, c', id);
    var given := c'.hosts[id].given;
    forall i, j | 0 <= i < j < |given| && given[i].Key() == given[j].Key()
      ensures given[i].seqno <= given[j].seqno
      ensures given[i].seqno == given[j].seqno ==> SameTake(given[i], given[j])
    {
      GivenIsOneTake(c'.t, id, given, i, j);
    }
    forall a | a in given
      ensures TakenByOwner(c'.t, a)
    {
      LoggedIsTakenByOwner(c'.t, a);
    }
  }

  /** An activation names one owner: of all the states ever answered, two with one activation have
      one owner, so comparing activations for equality is enough. */
  lemma ActivationNamesOwner(t: Trace, a: ServerState, b: ServerState)
    requires Known(t, a) && Known(t, b) && a.activation == b.activation
    ensures a.owner == b.owner
  {
  }

  /** No host takes for an ownership it has lost after one it got since: the activations of the
      takes it posts never go back, restarts included, and it owned under each. */
  lemma TakesNeverGoBack(isPrint: char -> bool, c: System, events: seq<Event>, c': System, id: HostId)
    requires Initial(c) && Run(isPrint, c, events, c') && id in c'.hosts
    ensures var taken, owners := c'.hosts[id].taken, c'.t.owners;
            && (forall i, j | 0 <= i < j < |taken| :: taken[i] <= taken[j])
            && (forall x | x in taken :: 0 <= x < |owners| && owners[x] == id)
  {
    InitialIsOk(c);
    RunKeeps(isPrint, c, events, c');
    assert TakenOk(c'.t, id, Ahead(c'.hosts[id]), c'.hosts[id].taken);
  }

  /** No wake-up is lost: what a watcher parked on an open broadcast sent its loop last is what the
      server holds now, the live hosts aside; and once the channel is empty that is the newest
      state of its decider, or the one it adopted as its first record. */
  lemma ParkedIsCurrent(isPrint: char -> bool, c: System, events: seq<Event>, c': System, id: HostId)
    requires Initial(c) && Run(isPrint, c, events, c') && id in c'.hosts
    requires c'.hosts[id].phase.Parked? && c'.hosts[id].phase.broadcast == c'.t.s.broadcast
    ensures var h := c'.hosts[id];
            && IsCurrent(c'.t.s, h.phase.sent)
            && (h.channel.None? ==>
                  || h.m.latest == Some(h.phase.sent)
                  || (h.m.latest.None? && h.m.handled == Some(h.m.Adopted(h.phase.sent))))
  {
    InitialIsOk(c);
    RunKeeps(isPrint, c, events, c');
  }

  /** No ownership edge is open against the server's owner, and of each assignment the server
      holds for another host none is left that the host could give away, as far as st shows who
      is live. */
  ghost predicate CaughtUp(s: Coordinator, h: Host, st: ServerState) {
    && h.m.WellFormed() && h.m.handled.Some?
    && (s.owner == h.m.cfg.id ==> h.m.handled.value.ownership == Ownership(s.owner, s.activation))
    && (s.owner != h.m.cfg.id && s.owner != "" ==> h.m.handled.value.ownership.owner != h.m.cfg.id)
    && (forall key | key in s.assignments && s.assignments[key].assignment.assignee != h.m.cfg.id ::
          var a := s.assignments[key].assignment;
          || h.m.handled.value.Has(key, a.seqno)
          || !st.IsLive(a.assignee)
          || Waking.HeldUntilWake(h.m.limits.LimitedUntil(h.m.cfg, h.clock, key), h.m.WakeAt(h.clock)))
  }

  lemma IdleHasCaughtUp(s: Coordinator, h: Host, st: ServerState)
    requires h.m.WellFormed() && h.m.latest == Some(st) && Waking.NothingLeft(h.m, h.clock)
    requires Keyed(s.assignments) && IsCurrent(s, st)
    ensures CaughtUp(s, h, st)
  {
  }

  lemma {:induction false} SeqsOfFacts(assignments: seq<Assignment>)
    requires DistinctKeys(assignments)
    ensures forall a | a in assignments :: a.Key() in SeqsOf(assignments) && SeqsOf(assignments)[a.Key()] == a.seqno
  {
    if assignments != [] {
      var init, last := assignments[..|assignments| - 1], assignments[|assignments| - 1];
      SeqsOfFacts(init);
      assert assignments == init + [last];
      assert forall a | a in init :: a.Key() != last.Key();
    }
  }

  lemma AdoptedHasCaughtUp(s: Coordinator, h: Host, st: ServerState)
    requires h.m.WellFormed() && h.m.handled == Some(h.m.Adopted(st)) && h.m.cfg.id != ""
    requires Keyed(s.assignments) && IsCurrent(s, st)
    ensures CaughtUp(s, h, st)
  {
    SeqsOfFacts(st.assignments);
    forall key | key in s.assignments
      ensures h.m.handled.value.Has(key, s.assignments[key].assignment.seqno)
    {
      assert s.assignments[key].assignment in st.assignments;
    }
  }

  /** A host parked, its channel read and no job in flight, has caught up with the server; one that
      has only just adopted its first state included. */
  lemma ParkedAndIdleHasCaughtUp(isPrint: char -> bool, c: System, events: seq<Event>, c': System, id: HostId)
    requires Initial(c) && Run(isPrint, c, events, c') && id in c'.hosts
    requires var h := c'.hosts[id];
             && h.phase.Parked? && h.phase.broadcast == c'.t.s.broadcast
             && h.channel.None? && h.m.job.None?
    ensures CaughtUp(c'.t.s, c'.hosts[id], c'.hosts[id].phase.sent)
  {
    ParkedIsCurrent(isPrint, c, events, c', id);
    InitialIsOk(c);
    RunKeeps(isPrint, c, events, c');
    var h := c'.hosts[id];
    if h.m.latest.Some? {
      IdleHasCaughtUp(c'.t.s, h, h.phase.sent);
    } else {
      AdoptedHasCaughtUp(c'.t.s, h, h.phase.sent);
    }
  }

  /** The server's count of a host's waits is exact, so a host is live while it waits. */
  lemma WaitingIsLive(isPrint: char -> bool, c: System, events: seq<Event>, c': System, id: HostId, now: Time)
    requires Initial(c) && Run(isPrint, c, events, c')
    ensures c'.handlers[id] == if id in c'.t.s.waiters then c'.t.s.waiters[id] else 0
    ensures id in c'.handlers ==> c'.t.s.IsLive(id, now)
  {
    InitialIsOk(c);
    RunKeeps(isPrint, c, events, c');
  }

  /** A command has exactly one field, and what is given away is the very take the newest state
      lists, the arrival aside. */
  ghost predicate SoundDecisions(m: DeciderState, ds: seq<Decision>) {
    && (forall k | k in Commands(ds) :: k.ExactlyOneField())
    && (forall a | a in Given(ds) ::
          m.latest.Some? && exists l :: l in m.latest.value.assignments && SameTake(a, l))
  }

  lemma DecidesSoundly(t: Trace, h: Host, now: Time, o: Observation)
    requires TraceOk(t) && HostOk(t, h) && h.clock <= now && ValidObservation(o)
    requires o.Seen? ==> h.channel == Some(o.state)
    ensures SoundDecisions(h.m.Decide(now, o).0, h.m.Decide(now, o).1)
  {
    if o.Seen? {
      AheadIsKnownState(t, h, o.state);
    }
    DecideGives(h.m, h.clock, now, o, Logged(t));
    var (m', ds) := h.m.Decide(now, o);
    forall a | a in Given(ds)
      ensures m'.latest.Some? && exists l :: l in m'.latest.value.assignments && SameTake(a, l)
    {
      GivenIsListed(t, m', now, a);
    }
  }

  lemma GivenIsListed(t: Trace, m: DeciderState, now: Time, a: Assignment)
    requires TraceOk(t) && From(m, Logged(t)) && GiveAwayAllowed(m, now, a) && InLog(t, a)
    ensures exists l :: l in m.latest.value.assignments && SameTake(a, l)
  {
    var l :| l in m.latest.value.assignments && l.Key() == a.Key() && l.seqno == a.seqno;
    assert l in Logged(t);
    KeyAndSeqNameOne(t, a, l);
  }

  /** Each decision of each host, whatever the interleaving. */
  lemma DecisionsAreSound(isPrint: char -> bool, c: System, events: seq<Event>, c': System,
                          id: HostId, now: Time, o: Observation)
    requires Initial(c) && Run(isPrint, c, events, c') && Enabled(c', Observed(id, now, o))
    ensures SoundDecisions(c'.hosts[id].m.Decide(now, o).0, c'.hosts[id].m.Decide(now, o).1)
  {
    InitialIsOk(c);
    RunKeeps(isPrint, c, events, c');
    DecidesSoundly(c'.t, c'.hosts[id], now, o);
  }
}
