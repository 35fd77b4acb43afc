/** The coordinator: each handler is one step under its lock. */
module Coordinating {
  import opened State

  const SECOND: Time := 1_000_000_000
  /** Reconnecting within this much of the last long poll keeps a host live. */
  const LIVE_GRACE: Time := 30 * SECOND
  const MAX_TAKES := 16
  const MAX_NAME_RUNES := 64
  const MAX_CHANNEL := 3

  /** What the map stores: the assignment, and which activation authorised it. */
  datatype Stored = Stored(assignment: Assignment, activation: int)

  datatype Take = Take(kind: string, name: string, input: string, channel: nat, arrived: bool) {
    function Key(): AssignmentKey {
      AssignmentKey(kind, name)
    }
  }

  datatype Arrival = Arrival(kind: string, name: string, seqno: Seq) {
    function Key(): AssignmentKey {
      AssignmentKey(kind, name)
    }
  }

  datatype Reply = Done(changed: bool) | BadRequest | NoLiveAgent | Conflict

  predicate ValidId(id: string) {
    1 <= |id| <= 64
    && forall c | c in id :: 'A' <= c <= 'Z' || 'a' <= c <= 'z' || '0' <= c <= '9' || c in "._-"
  }

  predicate HexByte(s: string) {
    |s| == 2 && forall c | c in s :: '0' <= c <= '9' || 'A' <= c <= 'F' || 'a' <= c <= 'f'
  }

  /** Three hex bytes, punctuated. */
  predicate ValidInput(s: string) {
    |s| == 8 && HexByte(s[..2]) && s[2] == ':' && HexByte(s[3..5]) && s[5] == '=' && HexByte(s[6..])
  }

  function Upper(s: string): string {
    seq(|s|, i requires 0 <= i < |s| => if 'a' <= s[i] <= 'z' then s[i] - 32 as char else s[i])
  }

  /** isPrint says which characters are printable. */
  predicate ValidTake(isPrint: char -> bool, t: Take) {
    && 1 <= |t.name| <= MAX_NAME_RUNES
    && (forall c | c in t.name :: isPrint(c))
    && if t.kind == KIND_SCREEN then ValidInput(t.input) && t.channel == 0
       else t.kind == KIND_HID && t.input == "" && 1 <= t.channel <= MAX_CHANNEL
  }

  predicate ValidTakes(isPrint: char -> bool, takes: seq<Take>) {
    && |takes| <= MAX_TAKES
    && (forall t | t in takes :: ValidTake(isPrint, t))
    && (forall i, j | 0 <= i < j < |takes| :: takes[i].Key() != takes[j].Key())
  }

  /** The server already holds what the take asks, under the same activation. */
  predicate Held(assignments: map<AssignmentKey, Stored>, id: HostId, activation: int, t: Take) {
    t.Key() in assignments
    && var held := assignments[t.Key()];
       && held.assignment.assignee == id && held.assignment.input == Upper(t.input)
       && held.assignment.channel == t.channel && held.activation == activation
  }

  /** The assignment a take records: the previous assignee is the last one that differs. */
  function Recorded(assignments: map<AssignmentKey, Stored>, id: HostId, activation: int, next: Seq, t: Take): Stored {
    var prev :=
      if t.Key() !in assignments then ""
      else
        var held := assignments[t.Key()].assignment;
        if held.assignee != id then held.assignee else held.prev;
    Stored(Assignment(t.kind, t.name, id, prev, next, Upper(t.input), t.channel, t.arrived && t.kind == KIND_HID),
           activation)
  }

  function RecordTakes(assignments: map<AssignmentKey, Stored>, id: HostId, activation: int, next: Seq,
                       takes: seq<Take>): map<AssignmentKey, Stored>
  {
    if takes == [] then assignments
    else
      var t := takes[|takes| - 1];
      var before := RecordTakes(assignments, id, activation, next, takes[..|takes| - 1]);
      if Held(before, id, activation, t) then before
      else before[t.Key() := Recorded(before, id, activation, next, t)]
  }

  /** Some take of the request is not held yet. */
  predicate AnyRecorded(assignments: map<AssignmentKey, Stored>, id: HostId, activation: int, next: Seq,
                        takes: seq<Take>)
  {
    takes != []
    && var init, t := takes[..|takes| - 1], takes[|takes| - 1];
       || AnyRecorded(assignments, id, activation, next, init)
       || !Held(RecordTakes(assignments, id, activation, next, init), id, activation, t)
  }

  /** The arrival answers a current assignment of id, not arrived yet. */
  predicate Answers(assignments: map<AssignmentKey, Stored>, id: HostId, a: Arrival) {
    && a.Key() in assignments
    && assignments[a.Key()].assignment.assignee == id
    && assignments[a.Key()].assignment.seqno == a.seqno
    && !assignments[a.Key()].assignment.arrived
  }

  function Marked(s: Stored): Stored {
    s.(assignment := s.assignment.(arrived := true))
  }

  function RecordArrivals(assignments: map<AssignmentKey, Stored>, id: HostId, arrivals: seq<Arrival>)
    : map<AssignmentKey, Stored>
  {
    if arrivals == [] then assignments
    else
      var a := arrivals[|arrivals| - 1];
      var before := RecordArrivals(assignments, id, arrivals[..|arrivals| - 1]);
      if Answers(before, id, a) then before[a.Key() := Marked(before[a.Key()])] else before
  }

  predicate AnyAnswers(assignments: map<AssignmentKey, Stored>, id: HostId, arrivals: seq<Arrival>) {
    arrivals != []
    && var init, a := arrivals[..|arrivals| - 1], arrivals[|arrivals| - 1];
       AnyAnswers(assignments, id, init) || Answers(RecordArrivals(assignments, id, init), id, a)
  }

  /** Each assignment is stored under its own key. */
  ghost predicate Keyed(assignments: map<AssignmentKey, Stored>) {
    forall key | key in assignments :: assignments[key].assignment.Key() == key
  }

  /** The assignments as a state lists them: each once, nothing else. */
  ghost predicate Lists(listed: seq<Assignment>, assignments: map<AssignmentKey, Stored>) {
    && DistinctKeys(listed)
    && (forall a | a in listed :: a.Key() in assignments && assignments[a.Key()].assignment == a)
    && (forall key | key in assignments :: assignments[key].assignment in listed)
  }

  /** The server's fields. A broadcast channel is the number of those closed before it. */
  datatype Coordinator = Coordinator(owner: HostId, epoch: int, activation: int,
                                     assignments: map<AssignmentKey, Stored>,
                                     waiters: map<HostId, nat>, lastWait: map<HostId, Time>, broadcast: nat)
  {
    predicate IsLive(id: HostId, now: Time) {
      || (id in waiters && waiters[id] > 0)
      || (id in lastWait && now - lastWait[id] < LIVE_GRACE)
    }

    /** The hosts still within their grace. */
    function InGrace(now: Time): map<HostId, Time> {
      map id | id in lastWait && IsLive(id, now) :: lastWait[id]
    }

    function Live(now: Time): map<HostId, bool> {
      map id | id in {owner} + waiters.Keys + InGrace(now).Keys :: id in waiters || id in InGrace(now)
    }

    /** st is what /state answers at now. */
    ghost predicate IsSnapshot(now: Time, st: ServerState) {
      && st.owner == owner && st.epoch == epoch && st.activation == activation
      && st.live == Live(now)
      && Lists(st.assignments, assignments)
    }

    function Claim(id: HostId, retake: bool, force: bool, now: Time): (Coordinator, Reply) {
      if !ValidId(id) then (this, BadRequest)
      else if id == owner && !retake then (this, Done(false))
      else if !IsLive(id, now) && !force then (this, NoLiveAgent)
      else
        (this.(owner := id, activation := activation + 1, epoch := epoch + 1, broadcast := broadcast + 1), Done(true))
    }

    function TakeAll(isPrint: char -> bool, id: HostId, underActivation: int, takes: seq<Take>): (Coordinator, Reply) {
      if !ValidId(id) || !ValidTakes(isPrint, takes) then (this, BadRequest)
      else if id != owner || underActivation != activation then (this, Conflict)
      else
        var recorded := RecordTakes(assignments, id, underActivation, epoch + 1, takes);
        var changed := AnyRecorded(assignments, id, underActivation, epoch + 1, takes);
        (this.(assignments := recorded).Bumped(changed), Done(changed))
    }

    function Arrive(id: HostId, arrivals: seq<Arrival>): (Coordinator, Reply) {
      if !ValidId(id) then (this, BadRequest)
      else
        var changed := AnyAnswers(assignments, id, arrivals);
        (this.(assignments := RecordArrivals(assignments, id, arrivals)).Bumped(changed), Done(changed))
    }

    /** One epoch step, every waiter woken, when something changed. */
    function Bumped(changed: bool): Coordinator {
      if changed then this.(epoch := epoch + 1, broadcast := broadcast + 1) else this
    }

    /** A /wait of id on the current epoch starts waiting. */
    function Registered(id: HostId): Coordinator {
      this.(waiters := waiters[id := (if id in waiters then waiters[id] else 0) + 1])
    }

    /** A /wait of id closes at now. */
    function Deregistered(id: HostId, now: Time): Coordinator {
      var count := if id in waiters then waiters[id] else 0;
      if count <= 1 then this.(waiters := waiters - {id}, lastWait := lastWait[id := now])
      else this.(waiters := waiters[id := count - 1])
    }

    /** The process restarts from its state file: nobody waits, every connection is gone. */
    function Restarted(): Coordinator {
      this.(waiters := map[], lastWait := map[], broadcast := broadcast + 1)
    }
  }

  const FRESH_COORDINATOR := Coordinator("", 0, 0, map[], map[], map[], 0)
}

module Ordering {
  import opened State

  /** Code point order, which is also the byte order of UTF-8. */
  predicate Less(a: string, b: string) {
    b != "" && (a == "" || a[0] < b[0] || (a[0] == b[0] && Less(a[1..], b[1..])))
  }

  predicate KeyLess(a: AssignmentKey, b: AssignmentKey) {
    Less(a.kind, b.kind) || (a.kind == b.kind && Less(a.name, b.name))
  }

  lemma {:induction false} LessIsIrreflexive(a: string)
    ensures !Less(a, a)
  {
    if a != "" {
      LessIsIrreflexive(a[1..]);
    }
  }

  lemma {:induction false} LessIsTotal(a: string, b: string)
    ensures Less(a, b) || a == b || Less(b, a)
  {
    if a != "" && b != "" {
      LessIsTotal(a[1..], b[1..]);
      assert a == [a[0]] + a[1..] && b == [b[0]] + b[1..];
    }
  }

  lemma {:induction false} LessIsTransitive(a: string, b: string, c: string)
    requires Less(a, b) && Less(b, c)
    ensures Less(a, c)
  {
    if a != "" && a[0] == b[0] && b[0] == c[0] {
      LessIsTransitive(a[1..], b[1..], c[1..]);
    }
  }

  lemma KeyLessIsTotal(a: AssignmentKey, b: AssignmentKey)
    ensures KeyLess(a, b) || a == b || KeyLess(b, a)
    ensures !KeyLess(a, a)
  {
    LessIsTotal(a.kind, b.kind);
    LessIsTotal(a.name, b.name);
    LessIsIrreflexive(a.kind);
    LessIsIrreflexive(a.name);
  }

  lemma KeyLessIsTransitive(a: AssignmentKey, b: AssignmentKey, c: AssignmentKey)
    requires KeyLess(a, b) && KeyLess(b, c)
    ensures KeyLess(a, c)
  {
    if Less(a.kind, b.kind) && Less(b.kind, c.kind) {
      LessIsTransitive(a.kind, b.kind, c.kind);
    } else if a.kind == b.kind && b.kind == c.kind {
      LessIsTransitive(a.name, b.name, c.name);
    }
  }

  /** Strictly increasing in key. */
  ghost predicate Sorted(listed: seq<Assignment>) {
    forall i, j | 0 <= i < j < |listed| :: KeyLess(listed[i].Key(), listed[j].Key())
  }

  lemma SortedIsDistinct(listed: seq<Assignment>)
    requires Sorted(listed)
    ensures DistinctKeys(listed)
  {
    forall i, j | 0 <= i < j < |listed|
      ensures listed[i].Key() != listed[j].Key()
    {
      KeyLessIsTotal(listed[i].Key(), listed[i].Key());
    }
  }

  lemma InsertedIsSorted(listed: seq<Assignment>, i: nat, a: Assignment)
    requires Sorted(listed) && i <= |listed|
    requires forall k | 0 <= k < i :: KeyLess(listed[k].Key(), a.Key())
    requires i < |listed| ==> KeyLess(a.Key(), listed[i].Key())
    ensures Sorted(listed[..i] + [a] + listed[i..])
  {
    forall k | i <= k < |listed|
      ensures KeyLess(a.Key(), listed[k].Key())
    {
      if k > i {
        KeyLessIsTransitive(a.Key(), listed[i].Key(), listed[k].Key());
      }
    }
  }
}
