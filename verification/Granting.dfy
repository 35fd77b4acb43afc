/** Which claims the coordinator grants, told from the requests alone. */
module Granting {
  import opened Options
  import opened State
  import opened Coordinating
  import opened ServerHistory

  /** What the coordinator answers a request that changes who owns or what is assigned. */
  function Answer(isPrint: char -> bool, s: Coordinator, r: Request): Option<Reply> {
    match r
    case ClaimBy(id, retake, force, now) => Some(s.Claim(id, retake, force, now).1)
    case TakeBy(id, underActivation, takes) => Some(s.TakeAll(isPrint, id, underActivation, takes).1)
    case ArrivedBy(id, arrivals) => Some(s.Arrive(id, arrivals).1)
    case _ => None
  }

  /** How many waits of id are open. */
  function OpenWaits(requests: seq<Request>, id: HostId): nat {
    if requests == [] then 0
    else
      var open, r := OpenWaits(requests[..|requests| - 1], id), requests[|requests| - 1];
      match r
      case Register(host) => if host == id then open + 1 else open
      case Deregister(host, now) => if host == id && open > 0 then open - 1 else open
      case Restart => 0
      case _ => open
  }

  /** When the last open wait of id closed, since the process started. */
  function LastClosed(requests: seq<Request>, id: HostId): Option<Time> {
    if requests == [] then None
    else
      var init, r := requests[..|requests| - 1], requests[|requests| - 1];
      match r
      case Deregister(host, now) =>
        if host == id && OpenWaits(init, id) <= 1 then Some(now) else LastClosed(init, id)
      case Restart => None
      case _ => LastClosed(init, id)
  }

  /** id waits, or last waited less than the grace ago. */
  predicate Waits(requests: seq<Request>, id: HostId, now: Time) {
    OpenWaits(requests, id) > 0
    || (LastClosed(requests, id).Some? && now - LastClosed(requests, id).value < LIVE_GRACE)
  }

  function TimeOf(r: Request): Option<Time> {
    match r
    case ClaimBy(id, retake, force, now) => Some(now)
    case Deregister(id, now) => Some(now)
    case ReadState(now) => Some(now)
    case _ => None
  }

  /** The coordinator's clock never goes back, and now is no earlier. */
  ghost predicate InOrder(requests: seq<Request>, now: Time) {
    && (forall i | 0 <= i < |requests| && TimeOf(requests[i]).Some? :: TimeOf(requests[i]).value <= now)
    && (forall i, j | 0 <= i < j < |requests| && TimeOf(requests[i]).Some? && TimeOf(requests[j]).Some? ::
          TimeOf(requests[i]).value <= TimeOf(requests[j]).value)
  }

  /** The waits s counts are those of the requests; a closed one it forgot is past its grace. */
  ghost predicate Follows(s: Coordinator, requests: seq<Request>, id: HostId, now: Time) {
    && OpenWaits(requests, id) == (if id in s.waiters then s.waiters[id] else 0)
    && (id in s.waiters ==> s.waiters[id] > 0)
    && (id in s.lastWait ==> LastClosed(requests, id) == Some(s.lastWait[id]))
    && (id !in s.lastWait && LastClosed(requests, id).Some? ==>
          now - LastClosed(requests, id).value >= LIVE_GRACE)
  }

  lemma StepFollows(isPrint: char -> bool, s: Coordinator, init: seq<Request>, r: Request, id: HostId, now: Time)
    requires TimeOf(r).Some? ==> TimeOf(r).value <= now
    requires Follows(s, init, id, if TimeOf(r).Some? then TimeOf(r).value else now)
    ensures Follows(Apply(isPrint, s, r), init + [r], id, now)
  {
    assert (init + [r])[..|init|] == init && (init + [r])[|init|] == r;
  }

  lemma {:induction false} RunFollows(isPrint: char -> bool, requests: seq<Request>, id: HostId, now: Time)
    requires InOrder(requests, now)
    ensures Follows(TraceOf(isPrint, requests).s, requests, id, now)
  {
    if requests != [] {
      var init, r := requests[..|requests| - 1], requests[|requests| - 1];
      var at := if TimeOf(r).Some? then TimeOf(r).value else now;
      RunFollows(isPrint, init, id, at);
      assert requests == init + [r];
      StepFollows(isPrint, TraceOf(isPrint, init).s, init, r, id, now);
    }
  }

  /** Over any run a state shows a host live exactly when it waits, or last waited less than the
      grace ago; besides those it names the owner alone. */
  lemma LiveIsWaiting(isPrint: char -> bool, requests: seq<Request>, id: HostId, now: Time, st: ServerState)
    requires InOrder(requests, now) && TraceOf(isPrint, requests).s.IsSnapshot(now, st)
    ensures id in st.live && st.live[id] <==> Waits(requests, id, now)
    ensures id in st.live <==> id == st.owner || Waits(requests, id, now)
  {
    RunFollows(isPrint, requests, id, now);
  }

  /** s' is s with id as its owner: one activation and one epoch on, every waiter woken, and
      nothing else changed. */
  ghost predicate Granted(s: Coordinator, s': Coordinator, id: HostId) {
    && s'.owner == id && s'.activation == s.activation + 1 && s'.epoch == s.epoch + 1
    && s'.broadcast != s.broadcast
    && s'.assignments == s.assignments && s'.waiters == s.waiters && s'.lastWait == s.lastWait
  }

  /** Which claims are granted, over any run. A valid host that does not own, or takes again, gets the
      ownership exactly when it is forced or waits, or last waited less than the grace ago; an owner
      that does not take again is told nothing changed; and the others are refused. Only a granted
      claim changes anything. */
  lemma ClaimsGranted(isPrint: char -> bool, requests: seq<Request>, id: HostId, retake: bool, force: bool, now: Time)
    requires InOrder(requests, now)
    ensures var s, r := TraceOf(isPrint, requests).s, ClaimBy(id, retake, force, now);
            var s', reply := Apply(isPrint, s, r), Answer(isPrint, s, r);
            if !ValidId(id) then reply == Some(BadRequest) && s' == s
            else if id == s.owner && !retake then reply == Some(Done(false)) && s' == s
            else if force || Waits(requests, id, now) then reply == Some(Done(true)) && Granted(s, s', id)
            else reply == Some(NoLiveAgent) && s' == s
  {
    RunFollows(isPrint, requests, id, now);
  }

  // Takes and arrivals.

  /** The request is accepted: from the owner, under its activation, and well formed. */
  ghost predicate Accepted(isPrint: char -> bool, s: Coordinator, id: HostId, underActivation: int, takes: seq<Take>) {
    ValidId(id) && ValidTakes(isPrint, takes) && id == s.owner && underActivation == s.activation
  }

  /** stored is what t asks, for id under activation. */
  ghost predicate Holds(stored: Stored, id: HostId, activation: int, t: Take) {
    var a := stored.assignment;
    && a.kind == t.kind && a.name == t.name && a.assignee == id && stored.activation == activation
    && a.input == Upper(t.input) && a.channel == t.channel
  }

  /** Which takes are accepted, and what they leave: each name taken is stored for this host, under
      this activation, with the input and channel taken; anew at the new epoch, unless that is what
      was stored, which then stays. A refused request changes nothing. */
  lemma TakesAccepted(isPrint: char -> bool, s: Coordinator, id: HostId, underActivation: int, takes: seq<Take>, i: nat)
    requires Sound(s) && i < |takes|
    ensures var r := TakeBy(id, underActivation, takes);
            var s', reply, key := Apply(isPrint, s, r), Answer(isPrint, s, r), takes[i].Key();
            if !ValidId(id) || !ValidTakes(isPrint, takes) then reply == Some(BadRequest) && s' == s
            else if id != s.owner || underActivation != s.activation then reply == Some(Conflict) && s' == s
            else
              && key in s'.assignments && Holds(s'.assignments[key], id, underActivation, takes[i])
              && (if key in s.assignments && Holds(s.assignments[key], id, underActivation, takes[i])
                  then s'.assignments[key] == s.assignments[key]
                  else
                    && s'.epoch == s.epoch + 1 && reply == Some(Done(true))
                    && s'.assignments[key].assignment.seqno == s'.epoch
                    && s'.assignments[key].assignment.arrived == (takes[i].kind == KIND_HID && takes[i].arrived))
  {
    if Accepted(isPrint, s, id, underActivation, takes) {
      TakesRecord(s.assignments, id, underActivation, s.epoch + 1, takes, i);
      ChangesUnlessHeld(s.assignments, id, underActivation, s.epoch + 1, takes);
      assert takes[i].Key() in s.assignments ==>
               s.assignments[takes[i].Key()].assignment.Key() == takes[i].Key();
    }
  }

  /** A take or an arrival either changes nothing, or changes the assignments, by one epoch step that
      wakes every waiter; and the answer tells which. */
  lemma StepsWhenChanged(isPrint: char -> bool, s: Coordinator, r: Request)
    requires Sound(s) && (r.TakeBy? || r.ArrivedBy?)
    ensures var s', reply := Apply(isPrint, s, r), Answer(isPrint, s, r);
            if reply == Some(Done(true)) then
              && s'.assignments != s.assignments && s'.epoch == s.epoch + 1 && s'.broadcast != s.broadcast
              && s' == s.(assignments := s'.assignments, epoch := s'.epoch, broadcast := s'.broadcast)
            else s' == s
  {
    if r.TakeBy? && Accepted(isPrint, s, r.id, r.underActivation, r.takes) {
      ChangesUnlessHeld(s.assignments, r.id, r.underActivation, s.epoch + 1, r.takes);
      if k :| 0 <= k < |r.takes| && !Held(s.assignments, r.id, r.underActivation, r.takes[k]) {
        TakesRecord(s.assignments, r.id, r.underActivation, s.epoch + 1, r.takes, k);
        var key := r.takes[k].Key();
        assert key in s.assignments ==> s.assignments[key].assignment.seqno <= s.epoch;
      }
    } else if r.ArrivedBy? && ValidId(r.id) {
      RecordArrivalsFacts(s.assignments, r.id, r.arrivals);
      if key :| key in s.assignments && Answered(s.assignments, r.id, r.arrivals, key) {
        var l :| 0 <= l < |r.arrivals| && r.arrivals[l].Key() == key && Answers(s.assignments, r.id, r.arrivals[l]);
        assert Apply(isPrint, s, r).assignments[key] == Marked(s.assignments[key]);
      }
    }
  }

  // Where what is stored comes from.

  /** Take j of request i recorded what is stored: accepted, it stepped the epoch to its seq. */
  ghost predicate RecordedBy(isPrint: char -> bool, requests: seq<Request>, i: nat, j: nat, stored: Stored)
    requires i < |requests|
  {
    var before, r := TraceOf(isPrint, requests[..i]).s, requests[i];
    && r.TakeBy? && j < |r.takes| && Accepted(isPrint, before, r.id, r.underActivation, r.takes)
    && Holds(stored, r.id, r.underActivation, r.takes[j])
    && Apply(isPrint, before, r).epoch == before.epoch + 1 == stored.assignment.seqno
  }

  ghost predicate NamesArrival(r: Request, a: Assignment) {
    r.ArrivedBy? && r.id == a.assignee && Arrival(a.kind, a.name, a.seqno) in r.arrivals
  }

  /** After request i the assignee reported a's arrival, at its seq. */
  ghost predicate ReportedSince(requests: seq<Request>, i: nat, a: Assignment) {
    exists k :: i < k < |requests| && NamesArrival(requests[k], a)
  }

  /** Where a stored assignment comes from, and when it reads arrived. */
  ghost predicate Origin(isPrint: char -> bool, requests: seq<Request>, stored: Stored, i: nat, j: nat) {
    && i < |requests| && RecordedBy(isPrint, requests, i, j, stored)
    && (stored.assignment.arrived <==>
          || (requests[i].takes[j].kind == KIND_HID && requests[i].takes[j].arrived)
          || ReportedSince(requests, i, stored.assignment))
  }

  lemma ReportedFront(requests: seq<Request>, i: nat, a: Assignment)
    requires requests != [] && i < |requests| - 1
    ensures ReportedSince(requests, i, a) <==>
              || ReportedSince(requests[..|requests| - 1], i, a)
              || NamesArrival(requests[|requests| - 1], a)
  {
    var n := |requests| - 1;
    if ReportedSince(requests, i, a) && !NamesArrival(requests[n], a) {
      var k :| i < k < |requests| && NamesArrival(requests[k], a);
      assert requests[..n][k] == requests[k];
    }
    if ReportedSince(requests[..n], i, a) {
      var k :| i < k < n && NamesArrival(requests[..n][k], a);
      assert requests[k] == requests[..n][k];
    }
  }

  /** What a request that does not record it anew does to a stored assignment. */
  lemma OriginStays(isPrint: char -> bool, requests: seq<Request>, was: Stored, stored: Stored, i: nat, j: nat)
    requires requests != [] && Origin(isPrint, requests[..|requests| - 1], was, i, j)
    requires stored == if NamesArrival(requests[|requests| - 1], was.assignment) then Marked(was) else was
    ensures Origin(isPrint, requests, stored, i, j)
  {
    var n := |requests| - 1;
    assert requests[..n][..i] == requests[..i] && requests[..n][i] == requests[i];
    ReportedFront(requests, i, was.assignment);
    assert ReportedSince(requests, i, stored.assignment) <==> ReportedSince(requests, i, was.assignment) by {
      assert forall k | 0 <= k < |requests| ::
          NamesArrival(requests[k], stored.assignment) <==> NamesArrival(requests[k], was.assignment);
    }
  }

  lemma ArrivalMarks(isPrint: char -> bool, s: Coordinator, r: Request, key: AssignmentKey)
    requires Keyed(s.assignments) && r.ArrivedBy? && key in s.assignments
    requires ValidId(s.assignments[key].assignment.assignee)
    ensures key in Apply(isPrint, s, r).assignments
    ensures Apply(isPrint, s, r).assignments[key]
         == if NamesArrival(r, s.assignments[key].assignment) then Marked(s.assignments[key]) else s.assignments[key]
  {
    RecordArrivalsFacts(s.assignments, r.id, r.arrivals);
    var a := s.assignments[key].assignment;
    if NamesArrival(r, a) && !a.arrived {
      var l :| 0 <= l < |r.arrivals| && r.arrivals[l] == Arrival(a.kind, a.name, a.seqno);
      assert Answers(s.assignments, r.id, r.arrivals[l]);
    }
    if Answered(s.assignments, r.id, r.arrivals, key) {
      var l :| 0 <= l < |r.arrivals| && r.arrivals[l].Key() == key && Answers(s.assignments, r.id, r.arrivals[l]);
      assert r.arrivals[l] == Arrival(a.kind, a.name, a.seqno);
    }
  }

  lemma OthersStay(isPrint: char -> bool, s: Coordinator, r: Request, key: AssignmentKey)
    requires Sound(s) && !r.ArrivedBy? && key in Apply(isPrint, s, r).assignments
    requires r.TakeBy? && Accepted(isPrint, s, r.id, r.underActivation, r.takes) ==> !Names(r.takes, key)
    ensures key in s.assignments && Apply(isPrint, s, r).assignments[key] == s.assignments[key]
  {
    if r.TakeBy? {
      UnnamedKeyIsKept(isPrint, s, r, key);
    }
  }

  /** Over any run each stored assignment was recorded by one accepted take, at the seq it stepped the
      epoch to, for the host that posted it, under its activation, with its input in upper case and
      its channel; and it reads arrived exactly when that take was of a device and said so, or its
      assignee has since reported that name, at that seq, arrived. */
  lemma {:induction false} StoredHasOrigin(isPrint: char -> bool, requests: seq<Request>, key: AssignmentKey)
    returns (i: nat, j: nat)
    requires key in TraceOf(isPrint, requests).s.assignments
    ensures Origin(isPrint, requests, TraceOf(isPrint, requests).s.assignments[key], i, j)
  {
    var n := |requests| - 1;
    var init, r, s := requests[..n], requests[n], TraceOf(isPrint, requests[..n]).s;
    var s' := Apply(isPrint, s, r);
    RunIsOk(isPrint, init);
    if r.TakeBy? && Accepted(isPrint, s, r.id, r.underActivation, r.takes) && Names(r.takes, key) {
      j :| 0 <= j < |r.takes| && r.takes[j].Key() == key;
      TakesAccepted(isPrint, s, r.id, r.underActivation, r.takes, j);
      if key in s.assignments && Holds(s.assignments[key], r.id, r.underActivation, r.takes[j]) {
        i, j := StoredHasOrigin(isPrint, init, key);
        OriginStays(isPrint, requests, s.assignments[key], s'.assignments[key], i, j);
      } else {
        i := n;
        assert !ReportedSince(requests, i, s'.assignments[key].assignment);
      }
    } else if r.ArrivedBy? {
      RecordArrivalsFacts(s.assignments, r.id, r.arrivals);
      i, j := StoredHasOrigin(isPrint, init, key);
      ArrivalMarks(isPrint, s, r, key);
      OriginStays(isPrint, requests, s.assignments[key], s'.assignments[key], i, j);
    } else {
      OthersStay(isPrint, s, r, key);
      i, j := StoredHasOrigin(isPrint, init, key);
      OriginStays(isPrint, requests, s.assignments[key], s'.assignments[key], i, j);
    }
  }

  predicate UpperHex(c: char) {
    '0' <= c <= '9' || 'A' <= c <= 'F'
  }

  /** Three bytes in hex, upper case. */
  predicate IsInput(s: string) {
    && |s| == 8 && s[2] == ':' && s[5] == '='
    && UpperHex(s[0]) && UpperHex(s[1]) && UpperHex(s[3]) && UpperHex(s[4]) && UpperHex(s[6]) && UpperHex(s[7])
  }

  lemma UpperPair(s: string)
    requires HexByte(s)
    ensures |Upper(s)| == 2 && UpperHex(Upper(s)[0]) && UpperHex(Upper(s)[1])
  {
    assert s[0] in s && s[1] in s;
  }

  lemma UpperInput(s: string)
    requires ValidInput(s)
    ensures IsInput(Upper(s))
  {
    UpperPair(s[..2]);
    UpperPair(s[3..5]);
    UpperPair(s[6..]);
    var u := Upper(s);
    assert u[..2] == Upper(s[..2]) && u[3..5] == Upper(s[3..5]) && u[6..] == Upper(s[6..]);
  }

  /** A screen on an input, or a device on a channel of an Easy-Switch, of a printable name, for a host
      with an id of 1 to 64 characters. */
  ghost predicate WellFormed(isPrint: char -> bool, a: Assignment) {
    && 1 <= |a.name| <= 64 && (forall c | c in a.name :: isPrint(c)) && 1 <= |a.assignee| <= 64
    && (|| (a.kind == "screen" && a.channel == 0 && IsInput(a.input))
        || (a.kind == "hid" && a.input == "" && 1 <= a.channel <= 3))
  }

  lemma HeldIsWellFormed(isPrint: char -> bool, stored: Stored, id: HostId, activation: int, t: Take)
    requires ValidId(id) && ValidTake(isPrint, t) && Holds(stored, id, activation, t)
    ensures WellFormed(isPrint, stored.assignment)
  {
    if t.kind == KIND_SCREEN {
      UpperInput(t.input);
    }
  }

  /** Over any run what is stored is well formed. */
  lemma StoredIsWellFormed(isPrint: char -> bool, requests: seq<Request>, key: AssignmentKey)
    requires key in TraceOf(isPrint, requests).s.assignments
    ensures WellFormed(isPrint, TraceOf(isPrint, requests).s.assignments[key].assignment)
  {
    var i, j := StoredHasOrigin(isPrint, requests, key);
    var stored, r := TraceOf(isPrint, requests).s.assignments[key], requests[i];
    HeldIsWellFormed(isPrint, stored, r.id, r.underActivation, r.takes[j]);
  }

  /** An arrival is matched by kind, name and seq, whatever the kind: a screen reported by its assignee
      reads arrived too, though the take of a screen never does. */
  lemma ScreenCanBeReported(isPrint: char -> bool, s: Coordinator, key: AssignmentKey)
    requires Keyed(s.assignments) && key in s.assignments && key.kind == KIND_SCREEN
    requires ValidId(s.assignments[key].assignment.assignee)
    ensures var a := s.assignments[key].assignment;
            var s' := Apply(isPrint, s, ArrivedBy(a.assignee, [Arrival(a.kind, a.name, a.seqno)]));
            key in s'.assignments && s'.assignments[key].assignment.arrived
  {
    var a := s.assignments[key].assignment;
    var r := ArrivedBy(a.assignee, [Arrival(a.kind, a.name, a.seqno)]);
    assert r.arrivals[0] in r.arrivals;
    ArrivalMarks(isPrint, s, r, key);
  }
}
