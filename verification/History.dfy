/** The coordinator over whole runs: who owned under which activation, what was recorded. */
module ServerHistory {
  import opened State
  import opened Coordinating

  datatype Request =
    | ClaimBy(id: HostId, retake: bool, force: bool, now: Time)
    | TakeBy(id: HostId, underActivation: int, takes: seq<Take>)
    | ArrivedBy(id: HostId, arrivals: seq<Arrival>)
    | Register(id: HostId)
    | Deregister(id: HostId, now: Time)
    | ReadState(now: Time)
    | Restart

  function Apply(isPrint: char -> bool, s: Coordinator, r: Request): Coordinator {
    match r
    case ClaimBy(id, retake, force, now) => s.Claim(id, retake, force, now).0
    case TakeBy(id, underActivation, takes) => s.TakeAll(isPrint, id, underActivation, takes).0
    case ArrivedBy(id, arrivals) => s.Arrive(id, arrivals).0
    case Register(id) => s.Registered(id)
    case Deregister(id, now) => s.Deregistered(id, now)
    case ReadState(now) => s.(lastWait := s.InGrace(now))
    case Restart => s.Restarted()
  }

  // What a request does to each key.

  ghost predicate DistinctTakes(takes: seq<Take>) {
    forall i, j | 0 <= i < j < |takes| :: takes[i].Key() != takes[j].Key()
  }

  ghost predicate Names(takes: seq<Take>, key: AssignmentKey) {
    exists i :: 0 <= i < |takes| && takes[i].Key() == key
  }

  /** A request leaves the keys it does not name alone. */
  lemma {:induction false} TakesLeave(before: map<AssignmentKey, Stored>, id: HostId, activation: int, next: Seq,
                                      takes: seq<Take>, key: AssignmentKey)
    requires !Names(takes, key)
    ensures var after := RecordTakes(before, id, activation, next, takes);
            (key in after <==> key in before) && (key in before ==> after[key] == before[key])
  {
    if takes != [] {
      var n := |takes| - 1;
      assert takes[n].Key() != key;
      assert forall i | 0 <= i < n :: takes[..n][i] == takes[i];
      TakesLeave(before, id, activation, next, takes[..n], key);
    }
  }

  /** What a request does to a key it names: nothing when held, else one recording. */
  lemma {:induction false} TakesRecord(before: map<AssignmentKey, Stored>, id: HostId, activation: int, next: Seq,
                                       takes: seq<Take>, i: nat)
    requires DistinctTakes(takes) && i < |takes|
    ensures var after := RecordTakes(before, id, activation, next, takes);
            && takes[i].Key() in after
            && after[takes[i].Key()] == if Held(before, id, activation, takes[i]) then before[takes[i].Key()]
                                        else Recorded(before, id, activation, next, takes[i])
  {
    var n := |takes| - 1;
    if i < n {
      TakesRecord(before, id, activation, next, takes[..n], i);
      assert takes[n].Key() != takes[i].Key();
    } else {
      TakesLeave(before, id, activation, next, takes[..n], takes[n].Key());
    }
  }

  /** A request changes something exactly when some take of it is not held. */
  lemma {:induction false} ChangesUnlessHeld(before: map<AssignmentKey, Stored>, id: HostId, activation: int, next: Seq,
                                             takes: seq<Take>)
    requires DistinctTakes(takes)
    ensures AnyRecorded(before, id, activation, next, takes) <==>
              exists i :: 0 <= i < |takes| && !Held(before, id, activation, takes[i])
    ensures !AnyRecorded(before, id, activation, next, takes) ==>
              RecordTakes(before, id, activation, next, takes) == before
  {
    if takes != [] {
      var n := |takes| - 1;
      ChangesUnlessHeld(before, id, activation, next, takes[..n]);
      TakesLeave(before, id, activation, next, takes[..n], takes[n].Key());
      assert forall i | 0 <= i < n :: takes[..n][i] == takes[i];
    }
  }

  ghost predicate Answered(before: map<AssignmentKey, Stored>, id: HostId, arrivals: seq<Arrival>, key: AssignmentKey) {
    exists i :: 0 <= i < |arrivals| && arrivals[i].Key() == key && Answers(before, id, arrivals[i])
  }

  lemma AnsweredFront(before: map<AssignmentKey, Stored>, id: HostId, arrivals: seq<Arrival>, key: AssignmentKey)
    requires arrivals != []
    ensures var n := |arrivals| - 1;
            Answered(before, id, arrivals, key) <==>
              || Answered(before, id, arrivals[..n], key)
              || (arrivals[n].Key() == key && Answers(before, id, arrivals[n]))
  {
    var n := |arrivals| - 1;
    if Answered(before, id, arrivals, key) && !(arrivals[n].Key() == key && Answers(before, id, arrivals[n])) {
      var i :| 0 <= i < |arrivals| && arrivals[i].Key() == key && Answers(before, id, arrivals[i]);
      assert arrivals[..n][i] == arrivals[i];
    }
  }

  /** Exactly the assignments some arrival answers are marked, and a request changes something
      exactly when there is one. */
  lemma {:induction false} RecordArrivalsFacts(before: map<AssignmentKey, Stored>, id: HostId, arrivals: seq<Arrival>)
    ensures var after := RecordArrivals(before, id, arrivals);
            && after.Keys == before.Keys
            && (forall key | key in before ::
                  after[key] == if Answered(before, id, arrivals, key) then Marked(before[key]) else before[key])
            && (AnyAnswers(before, id, arrivals) <==>
                  exists key :: key in before && Answered(before, id, arrivals, key))
            && (!AnyAnswers(before, id, arrivals) ==> after == before)
  {
    if arrivals != [] {
      var n := |arrivals| - 1;
      RecordArrivalsFacts(before, id, arrivals[..n]);
      forall key {
        AnsweredFront(before, id, arrivals, key);
      }
    }
  }

  /** Repeating an accepted take changes nothing. */
  lemma RepeatedTakeIsNoOp(isPrint: char -> bool, s: Coordinator, id: HostId, underActivation: int, takes: seq<Take>)
    ensures var (s', r) := s.TakeAll(isPrint, id, underActivation, takes);
            r.Done? ==> s'.TakeAll(isPrint, id, underActivation, takes) == (s', Done(false))
  {
    var (s', r) := s.TakeAll(isPrint, id, underActivation, takes);
    if r.Done? {
      forall i | 0 <= i < |takes|
        ensures Held(s'.assignments, id, underActivation, takes[i])
      {
        TakesRecord(s.assignments, id, underActivation, s.epoch + 1, takes, i);
      }
      ChangesUnlessHeld(s'.assignments, id, underActivation, s'.epoch + 1, takes);
    }
  }

  // One server state is later than another of the same run.

  /** The same recording, perhaps arrived since. */
  ghost predicate SameRecording(a: Assignment, a': Assignment) {
    a' == a || a' == a.(arrived := true)
  }

  ghost predicate StoredLater(a: Stored, a': Stored) {
    && a.assignment.seqno <= a'.assignment.seqno
    && (a.assignment.seqno == a'.assignment.seqno ==>
          a'.activation == a.activation && SameRecording(a.assignment, a'.assignment))
  }

  ghost predicate Later(s: Coordinator, s': Coordinator) {
    && s.epoch <= s'.epoch && s.activation <= s'.activation && s.broadcast <= s'.broadcast
    && (s.epoch == s'.epoch ==>
          s'.owner == s.owner && s'.activation == s.activation && s'.assignments == s.assignments)
    && (s.broadcast == s'.broadcast ==> s'.epoch == s.epoch)
    && (forall key | key in s.assignments ::
          key in s'.assignments && StoredLater(s.assignments[key], s'.assignments[key]))
  }

  ghost predicate Sound(s: Coordinator) {
    && Keyed(s.assignments)
    && (forall key | key in s.assignments :: s.assignments[key].assignment.seqno <= s.epoch)
  }

  lemma LaterIsTransitive(a: Coordinator, b: Coordinator, c: Coordinator)
    requires Later(a, b) && Later(b, c)
    ensures Later(a, c)
  {
    forall key | key in a.assignments
      ensures key in c.assignments && StoredLater(a.assignments[key], c.assignments[key])
    {
      assert StoredLater(a.assignments[key], b.assignments[key]);
      assert StoredLater(b.assignments[key], c.assignments[key]);
    }
  }

  /** What a recorded request does to one key. */
  lemma TakenKeyIsLater(s: Coordinator, id: HostId, activation: int, takes: seq<Take>, key: AssignmentKey)
    requires Sound(s) && DistinctTakes(takes)
    ensures var after := RecordTakes(s.assignments, id, activation, s.epoch + 1, takes);
            && (key in s.assignments ==> key in after && StoredLater(s.assignments[key], after[key]))
            && (key in after ==>
                  && after[key].assignment.Key() == key && after[key].assignment.seqno <= s.epoch + 1
                  && (!AnyRecorded(s.assignments, id, activation, s.epoch + 1, takes) ==>
                        after[key].assignment.seqno <= s.epoch))
  {
    ChangesUnlessHeld(s.assignments, id, activation, s.epoch + 1, takes);
    if Names(takes, key) {
      var i :| 0 <= i < |takes| && takes[i].Key() == key;
      TakesRecord(s.assignments, id, activation, s.epoch + 1, takes, i);
    } else {
      TakesLeave(s.assignments, id, activation, s.epoch + 1, takes, key);
    }
  }

  lemma TakeIsLater(isPrint: char -> bool, s: Coordinator, id: HostId, underActivation: int, takes: seq<Take>)
    requires Sound(s)
    ensures var s' := s.TakeAll(isPrint, id, underActivation, takes).0;
            Sound(s') && Later(s, s')
  {
    if ValidId(id) && ValidTakes(isPrint, takes) && id == s.owner && underActivation == s.activation {
      ChangesUnlessHeld(s.assignments, id, underActivation, s.epoch + 1, takes);
      var s' := s.TakeAll(isPrint, id, underActivation, takes).0;
      forall key | key in s'.assignments
        ensures s'.assignments[key].assignment.Key() == key && s'.assignments[key].assignment.seqno <= s'.epoch
      {
        TakenKeyIsLater(s, id, underActivation, takes, key);
      }
      forall key | key in s.assignments
        ensures key in s'.assignments && StoredLater(s.assignments[key], s'.assignments[key])
      {
        TakenKeyIsLater(s, id, underActivation, takes, key);
      }
    }
  }

  lemma ArriveIsLater(s: Coordinator, id: HostId, arrivals: seq<Arrival>)
    requires Sound(s)
    ensures Sound(s.Arrive(id, arrivals).0) && Later(s, s.Arrive(id, arrivals).0)
  {
    RecordArrivalsFacts(s.assignments, id, arrivals);
  }

  /** Every request leads to a later state: epochs tell states apart, each epoch step closes
      the broadcast, and a (name, seq) pair keeps naming the same recording. */
  lemma ApplyIsLater(isPrint: char -> bool, s: Coordinator, r: Request)
    requires Sound(s)
    ensures Sound(Apply(isPrint, s, r)) && Later(s, Apply(isPrint, s, r))
  {
    match r {
      case TakeBy(id, underActivation, takes) => TakeIsLater(isPrint, s, id, underActivation, takes);
      case ArrivedBy(id, arrivals) => ArriveIsLater(s, id, arrivals);
      case _ =>
    }
  }

  // Snapshots of one run.

  /** A later state's listing: every name still listed, at no earlier a seq; at the same seq it
      is the same recording. */
  ghost predicate ListedLater(st: ServerState, st': ServerState) {
    forall a | a in st.assignments ::
      exists a' :: a' in st'.assignments && a'.Key() == a.Key() && a.seqno <= a'.seqno
                   && (a.seqno == a'.seqno ==> SameRecording(a, a'))
  }

  lemma SnapshotsAreLater(s: Coordinator, now: Time, st: ServerState, s': Coordinator, now': Time, st': ServerState)
    requires Sound(s) && Sound(s') && Later(s, s') && s.IsSnapshot(now, st) && s'.IsSnapshot(now', st')
    ensures ListedLater(st, st')
  {
    forall a | a in st.assignments
      ensures exists a' :: a' in st'.assignments && a'.Key() == a.Key() && a.seqno <= a'.seqno
                           && (a.seqno == a'.seqno ==> SameRecording(a, a'))
    {
      var a' := s'.assignments[a.Key()].assignment;
      assert StoredLater(s.assignments[a.Key()], s'.assignments[a.Key()]);
      assert a' in st'.assignments;
      assert a'.Key() in s'.assignments && s'.assignments[a'.Key()].assignment == a';
    }
  }

  // Who owned, and what was recorded.

  /** A run: the server, its owner under each activation, and every recording of each name. */
  datatype Trace = Trace(s: Coordinator, owners: seq<HostId>, log: map<AssignmentKey, seq<Stored>>)

  const START := Trace(FRESH_COORDINATOR, [""], map[])

  /** The key's assignment was recorded anew: it is new, or its seq changed. */
  predicate RecordedAnew(s: Coordinator, s': Coordinator, key: AssignmentKey)
    requires key in s'.assignments
  {
    key !in s.assignments || s.assignments[key].assignment.seqno != s'.assignments[key].assignment.seqno
  }

  function LogOf(log: map<AssignmentKey, seq<Stored>>, key: AssignmentKey): seq<Stored> {
    if key in log then log[key] else []
  }

  function Step(isPrint: char -> bool, t: Trace, r: Request): Trace {
    var s' := Apply(isPrint, t.s, r);
    Trace(s',
          if s'.activation != t.s.activation then t.owners + [s'.owner] else t.owners,
          map key | key in s'.assignments ::
            LogOf(t.log, key) + if RecordedAnew(t.s, s', key) then [s'.assignments[key]] else [])
  }

  /** The most recent assignee among recordings that differs from who; "" when there is none. */
  function LastOther(recordings: seq<Stored>, who: HostId): HostId {
    if recordings == [] then ""
    else
      var last := recordings[|recordings| - 1].assignment.assignee;
      if last != who then last else LastOther(recordings[..|recordings| - 1], who)
  }

  ghost predicate RecordingOk(t: Trace, recordings: seq<Stored>, i: nat)
    requires i < |recordings|
  {
    var r := recordings[i];
    && 1 <= r.activation < |t.owners| && t.owners[r.activation] == r.assignment.assignee
    && r.assignment.assignee != ""
    && r.assignment.seqno <= t.s.epoch
    && r.assignment.prev == LastOther(recordings[..i], r.assignment.assignee)
    && (i > 0 ==> recordings[i - 1].assignment.seqno < r.assignment.seqno
                  && recordings[i - 1].activation <= r.activation)
  }

  ghost predicate RecordingsOk(t: Trace, recordings: seq<Stored>) {
    && recordings != []
    && forall i | 0 <= i < |recordings| :: RecordingOk(t, recordings, i)
  }

  ghost predicate TraceOk(t: Trace) {
    && Sound(t.s)
    && t.s.epoch >= 0 && t.s.activation >= 0 && |t.owners| == t.s.activation + 1
    && t.owners[t.s.activation] == t.s.owner
    && (t.s.owner == "" ==> t.s.activation == 0)
    && (t.s.activation == 0 ==> t.s.owner == "")
    && t.log.Keys == t.s.assignments.Keys
    && (forall key | key in t.log :: KeyOk(t, key, t.s.assignments[key], t.log[key]))
  }

  /** What is stored under a key is its last recording, perhaps arrived since. */
  ghost predicate KeyOk(t: Trace, key: AssignmentKey, stored: Stored, recordings: seq<Stored>) {
    && key.Valid()
    && RecordingsOk(t, recordings)
    && var last := recordings[|recordings| - 1];
       last.activation == stored.activation && SameRecording(last.assignment, stored.assignment)
  }

  lemma StartIsOk()
    ensures TraceOk(START)
  {
  }

  lemma RecordingsStay(t: Trace, t': Trace, recordings: seq<Stored>)
    requires RecordingsOk(t, recordings)
    requires t.owners <= t'.owners && t.s.epoch <= t'.s.epoch
    ensures RecordingsOk(t', recordings)
  {
    forall i | 0 <= i < |recordings|
      ensures RecordingOk(t', recordings, i)
    {
      assert RecordingOk(t, recordings, i);
    }
  }

  lemma RecordingAdded(t: Trace, recordings: seq<Stored>, r: Stored)
    requires recordings != [] ==> RecordingsOk(t, recordings)
    requires RecordingOk(t, recordings + [r], |recordings|)
    ensures RecordingsOk(t, recordings + [r])
  {
    var all := recordings + [r];
    forall i | 0 <= i < |all|
      ensures RecordingOk(t, all, i)
    {
      if i < |recordings| {
        assert RecordingOk(t, recordings, i);
        assert all[..i] == recordings[..i];
      }
    }
  }

  /** The prev a take records is the most recent different assignee. */
  lemma PrevIsLastOther(t: Trace, id: HostId, next: Seq, k: Take)
    requires TraceOk(t)
    ensures Recorded(t.s.assignments, id, t.s.activation, next, k).assignment.prev
         == LastOther(LogOf(t.log, k.Key()), id)
  {
    var recordings := LogOf(t.log, k.Key());
    if recordings != [] {
      assert KeyOk(t, k.Key(), t.s.assignments[k.Key()], recordings);
      assert RecordingOk(t, recordings, |recordings| - 1);
    }
  }

  /** One key over an accepted take that names it and does not find it held. */
  lemma TakenKeyOk(t: Trace, t': Trace, id: HostId, k: Take)
    requires TraceOk(t) && t'.owners == t.owners && t'.s.epoch == t.s.epoch + 1
    requires id == t.s.owner && ValidId(id) && k.Key().Valid()
    ensures var r := Recorded(t.s.assignments, id, t.s.activation, t.s.epoch + 1, k);
            KeyOk(t', k.Key(), r, LogOf(t.log, k.Key()) + [r])
  {
    var recordings, r := LogOf(t.log, k.Key()), Recorded(t.s.assignments, id, t.s.activation, t.s.epoch + 1, k);
    PrevIsLastOther(t, id, t.s.epoch + 1, k);
    assert (recordings + [r])[..|recordings|] == recordings;
    if recordings != [] {
      assert KeyOk(t, k.Key(), t.s.assignments[k.Key()], recordings);
      assert RecordingOk(t, recordings, |recordings| - 1);
      RecordingsStay(t, t', recordings);
    }
    RecordingAdded(t', recordings, r);
  }

  /** One key over a request that does not record it anew. */
  lemma KeptKeyOk(t: Trace, t': Trace, key: AssignmentKey, stored: Stored)
    requires TraceOk(t) && t.owners <= t'.owners && t.s.epoch <= t'.s.epoch && key in t.s.assignments
    requires stored == t.s.assignments[key] || stored == Marked(t.s.assignments[key])
    ensures KeyOk(t', key, stored, t.log[key])
  {
    assert KeyOk(t, key, t.s.assignments[key], t.log[key]);
    RecordingsStay(t, t', t.log[key]);
  }

  /** What a step logs under a key: what was logged, and the key's assignment when it is anew. */
  lemma StepLogs(isPrint: char -> bool, t: Trace, r: Request, key: AssignmentKey)
    requires key in Apply(isPrint, t.s, r).assignments
    ensures var t' := Step(isPrint, t, r);
            && key in t'.log
            && t'.log[key] == if RecordedAnew(t.s, t'.s, key) then LogOf(t.log, key) + [t'.s.assignments[key]]
                              else LogOf(t.log, key)
  {
    assert LogOf(t.log, key) + [] == LogOf(t.log, key);
  }

  lemma StepKeepsOwners(isPrint: char -> bool, t: Trace, r: Request)
    requires TraceOk(t)
    ensures var t' := Step(isPrint, t, r);
            && t.owners <= t'.owners && |t'.owners| == t'.s.activation + 1
            && t'.owners[t'.s.activation] == t'.s.owner
            && (t'.s.owner == "" <==> t'.s.activation == 0)
            && t.s.epoch <= t'.s.epoch && 0 <= t.s.activation <= t'.s.activation
            && (!r.ClaimBy? ==> t'.owners == t.owners)
            && t'.log.Keys == t'.s.assignments.Keys
  {
  }

  /** One key over an accepted request that names it. */
  lemma NamedKeyOk(isPrint: char -> bool, t: Trace, r: Request, i: nat)
    requires TraceOk(t) && r.TakeBy? && i < |r.takes|
    requires t.s.TakeAll(isPrint, r.id, r.underActivation, r.takes).1 == Done(true)
    ensures var t', key := Step(isPrint, t, r), r.takes[i].Key();
            key in t'.s.assignments && key in t'.log && KeyOk(t', key, t'.s.assignments[key], t'.log[key])
  {
    var t', k := Step(isPrint, t, r), r.takes[i];
    StepKeepsOwners(isPrint, t, r);
    TakesRecord(t.s.assignments, r.id, r.underActivation, t.s.epoch + 1, r.takes, i);
    StepLogs(isPrint, t, r, k.Key());
    if Held(t.s.assignments, r.id, r.underActivation, k) {
      KeptKeyOk(t, t', k.Key(), t'.s.assignments[k.Key()]);
    } else {
      assert ValidTake(isPrint, k);
      assert RecordedAnew(t.s, t'.s, k.Key());
      TakenKeyOk(t, t', r.id, k);
    }
  }

  lemma TakeKeepsKeys(isPrint: char -> bool, t: Trace, r: Request, key: AssignmentKey)
    requires TraceOk(t) && r.TakeBy? && key in Apply(isPrint, t.s, r).assignments
    ensures var t' := Step(isPrint, t, r);
            key in t'.log && KeyOk(t', key, t'.s.assignments[key], t'.log[key])
  {
    var t' := Step(isPrint, t, r);
    if t.s.TakeAll(isPrint, r.id, r.underActivation, r.takes).1 == Done(true) && Names(r.takes, key) {
      var i :| 0 <= i < |r.takes| && r.takes[i].Key() == key;
      NamedKeyOk(isPrint, t, r, i);
    } else {
      StepKeepsOwners(isPrint, t, r);
      StepLogs(isPrint, t, r, key);
      UnnamedKeyIsKept(isPrint, t.s, r, key);
      KeptKeyOk(t, t', key, t'.s.assignments[key]);
    }
  }

  lemma UnnamedKeyIsKept(isPrint: char -> bool, s: Coordinator, r: Request, key: AssignmentKey)
    requires r.TakeBy? && key in Apply(isPrint, s, r).assignments
    requires s.TakeAll(isPrint, r.id, r.underActivation, r.takes).1 == Done(true) ==> !Names(r.takes, key)
    ensures key in s.assignments && Apply(isPrint, s, r).assignments[key] == s.assignments[key]
  {
    var (s', reply) := s.TakeAll(isPrint, r.id, r.underActivation, r.takes);
    if reply.Done? {
      ChangesUnlessHeld(s.assignments, r.id, r.underActivation, s.epoch + 1, r.takes);
      if reply.changed {
        TakesLeave(s.assignments, r.id, r.underActivation, s.epoch + 1, r.takes, key);
      }
    }
  }

  lemma StepKeeps(isPrint: char -> bool, t: Trace, r: Request)
    requires TraceOk(t)
    ensures TraceOk(Step(isPrint, t, r))
  {
    var t' := Step(isPrint, t, r);
    ApplyIsLater(isPrint, t.s, r);
    StepKeepsOwners(isPrint, t, r);
    forall key | key in t'.log
      ensures KeyOk(t', key, t'.s.assignments[key], t'.log[key])
    {
      if r.TakeBy? {
        TakeKeepsKeys(isPrint, t, r, key);
      } else {
        if r.ArrivedBy? {
          RecordArrivalsFacts(t.s.assignments, r.id, r.arrivals);
        }
        StepLogs(isPrint, t, r, key);
        KeptKeyOk(t, t', key, t'.s.assignments[key]);
      }
    }
  }

  /** The trace after a run of requests on a fresh server. */
  ghost function TraceOf(isPrint: char -> bool, requests: seq<Request>): Trace {
    if requests == [] then START
    else Step(isPrint, TraceOf(isPrint, requests[..|requests| - 1]), requests[|requests| - 1])
  }

  lemma {:induction false} RunIsOk(isPrint: char -> bool, requests: seq<Request>)
    ensures TraceOk(TraceOf(isPrint, requests))
  {
    if requests == [] {
      StartIsOk();
    } else {
      RunIsOk(isPrint, requests[..|requests| - 1]);
      StepKeeps(isPrint, TraceOf(isPrint, requests[..|requests| - 1]), requests[|requests| - 1]);
    }
  }

  /** Over any run each stored assignment was taken by the host that owned under the activation
      stored with it, that activation is at most the current one and its seq at most the
      epoch, and prev is the most recent different assignee the name ever had. */
  lemma AuthorisationHistory(isPrint: char -> bool, requests: seq<Request>, key: AssignmentKey)
    requires key in TraceOf(isPrint, requests).s.assignments
    ensures var t := TraceOf(isPrint, requests);
            var stored := t.s.assignments[key];
            var a := stored.assignment;
            && 1 <= stored.activation <= t.s.activation && |t.owners| == t.s.activation + 1
            && a.assignee == t.owners[stored.activation] && a.assignee != ""
            && a.seqno <= t.s.epoch
            && a.prev != a.assignee
            && key in t.log && a.prev == LastOther(t.log[key], a.assignee)
  {
    RunIsOk(isPrint, requests);
    var t := TraceOf(isPrint, requests);
    var recordings := t.log[key];
    assert KeyOk(t, key, t.s.assignments[key], recordings);
    assert RecordingOk(t, recordings, |recordings| - 1);
    LastOtherDiffers(recordings, t.s.assignments[key].assignment.assignee);
  }

  lemma {:induction false} LastOtherDiffers(recordings: seq<Stored>, who: HostId)
    requires who != ""
    ensures LastOther(recordings, who) != who
  {
    if recordings != [] {
      LastOtherDiffers(recordings[..|recordings| - 1], who);
    }
  }

  lemma {:induction false} RunsAreLater(isPrint: char -> bool, requests: seq<Request>, i: nat)
    requires i <= |requests|
    ensures Later(TraceOf(isPrint, requests[..i]).s, TraceOf(isPrint, requests).s)
    decreases |requests|
  {
    if i == |requests| {
      assert requests[..i] == requests;
    } else {
      var init := requests[..|requests| - 1];
      RunsAreLater(isPrint, init, i);
      assert init[..i] == requests[..i];
      RunIsOk(isPrint, init);
      ApplyIsLater(isPrint, TraceOf(isPrint, init).s, requests[|requests| - 1]);
      LaterIsTransitive(TraceOf(isPrint, requests[..i]).s, TraceOf(isPrint, init).s, TraceOf(isPrint, requests).s);
    }
  }

  /** A name and a seq name one recording: any two states of one run that show it agree on it,
      and what had arrived in the earlier has arrived in the later. */
  lemma SnapshotsAgree(isPrint: char -> bool, requests: seq<Request>, i: nat, now: Time, st: ServerState, a: Assignment,
                       now': Time, st': ServerState, a': Assignment)
    requires i <= |requests|
    requires TraceOf(isPrint, requests[..i]).s.IsSnapshot(now, st) && a in st.assignments
    requires TraceOf(isPrint, requests).s.IsSnapshot(now', st') && a' in st'.assignments
    requires a.Key() == a'.Key()
    ensures a.seqno <= a'.seqno && (a.seqno == a'.seqno ==> SameRecording(a, a'))
  {
    RunIsOk(isPrint, requests[..i]);
    RunIsOk(isPrint, requests);
    RunsAreLater(isPrint, requests, i);
    SnapshotsAreLater(TraceOf(isPrint, requests[..i]).s, now, st, TraceOf(isPrint, requests).s, now', st');
    var c :| c in st'.assignments && c.Key() == a.Key() && a.seqno <= c.seqno
             && (a.seqno == c.seqno ==> SameRecording(a, c));
    assert c == a';
  }
}
