/** The coordinator as the object the handlers share: each method is one handler under the
    lock, and moves its fields as the specification moves the state. */
module CoordinatorObject {
  import opened Options
  import opened State
  import opened Coordinating
  import opened Ordering
  import ServerHistory

  /** What is stored for t is as id took it under activation: as it was, or recorded anew at epoch,
      arrived only if it is a device and the take said so. */
  ghost predicate StoredFor(before: map<AssignmentKey, Stored>, after: map<AssignmentKey, Stored>,
                            id: HostId, activation: int, epoch: int, t: Take)
  {
    && t.Key() in after
    && var stored := after[t.Key()];
       && stored.activation == activation && stored.assignment.assignee == id
       && stored.assignment.input == Upper(t.input) && stored.assignment.channel == t.channel
       && (|| (t.Key() in before && stored == before[t.Key()])
           || (stored.assignment.seqno == epoch
               && (stored.assignment.arrived <==> t.kind == KIND_HID && t.arrived)))
  }

  lemma TakesStore(before: map<AssignmentKey, Stored>, id: HostId, activation: int, epoch: int, takes: seq<Take>)
    requires ServerHistory.DistinctTakes(takes)
    ensures var after := RecordTakes(before, id, activation, epoch + 1, takes);
            var changed := AnyRecorded(before, id, activation, epoch + 1, takes);
            forall i | 0 <= i < |takes| ::
              StoredFor(before, after, id, activation, if changed then epoch + 1 else epoch, takes[i])
  {
    ServerHistory.ChangesUnlessHeld(before, id, activation, epoch + 1, takes);
    forall i | 0 <= i < |takes|
      ensures var changed := AnyRecorded(before, id, activation, epoch + 1, takes);
              StoredFor(before, RecordTakes(before, id, activation, epoch + 1, takes), id, activation,
                        if changed then epoch + 1 else epoch, takes[i])
    {
      ServerHistory.TakesRecord(before, id, activation, epoch + 1, takes, i);
    }
  }

  class Server {
    const isPrint: char -> bool
    var owner: HostId
    var epoch: int
    var activation: int
    var assignments: map<AssignmentKey, Stored>
    var waiters: map<HostId, nat>
    var lastWait: map<HostId, Time>
    var broadcast: nat

    function Value(): Coordinator
      reads this
    {
      Coordinator(owner, epoch, activation, assignments, waiters, lastWait, broadcast)
    }

    constructor (isPrint: char -> bool)
      ensures this.isPrint == isPrint && Value() == FRESH_COORDINATOR
    {
      this.isPrint := isPrint;
      owner, epoch, activation := "", 0, 0;
      assignments, waiters, lastWait, broadcast := map[], map[], map[], 0;
    }

    method HandleClaim(id: HostId, retake: bool, force: bool, now: Time) returns (r: Reply)
      modifies this
      ensures (Value(), r) == old(Value()).Claim(id, retake, force, now)
      ensures r == Done(true) <==>
                && ValidId(id) && (id != old(owner) || retake)
                && (|| force
                    || (id in old(waiters) && old(waiters)[id] > 0)
                    || (id in old(lastWait) && now - old(lastWait)[id] < LIVE_GRACE))
      ensures r == Done(true) ==>
                && owner == id && activation == old(activation) + 1 && epoch == old(epoch) + 1
                && assignments == old(assignments)
      ensures r != Done(true) ==> Value() == old(Value())
    {
      if !ValidId(id) {
        return BadRequest;
      }
      if id == owner && !retake {
        return Done(false);
      }
      if !Value().IsLive(id, now) && !force {
        return NoLiveAgent;
      }
      if owner != id {
        owner := id;
      }
      activation := activation + 1;
      epoch := epoch + 1;
      Wake();
      return Done(true);
    }

    method HandleTake(id: HostId, underActivation: int, takes: seq<Take>) returns (r: Reply)
      modifies this
      ensures (Value(), r) == old(Value()).TakeAll(isPrint, id, underActivation, takes)
      ensures r.Done? ==>
                forall i | 0 <= i < |takes| ::
                  StoredFor(old(assignments), assignments, id, underActivation, epoch, takes[i])
    {
      if !ValidId(id) || !ValidTakes(isPrint, takes) {
        return BadRequest;
      }
      if id != owner || underActivation != activation {
        return Conflict;
      }
      ghost var was := Value();
      var next := epoch + 1;
      var changed := false;
      for i := 0 to |takes|
        invariant Value() == was.(assignments := RecordTakes(was.assignments, id, underActivation, next, takes[..i]))
        invariant changed == AnyRecorded(was.assignments, id, underActivation, next, takes[..i])
      {
        assert takes[..i + 1][..i] == takes[..i];
        var t := takes[i];
        if !Held(assignments, id, underActivation, t) {
          assignments := assignments[t.Key() := Recorded(assignments, id, underActivation, next, t)];
          changed := true;
        }
      }
      assert takes[..|takes|] == takes;
      TakesStore(was.assignments, id, underActivation, was.epoch, takes);
      Bump(changed);
      return Done(changed);
    }

    method HandleArrived(id: HostId, arrivals: seq<Arrival>) returns (r: Reply)
      modifies this
      ensures (Value(), r) == old(Value()).Arrive(id, arrivals)
    {
      if !ValidId(id) {
        return BadRequest;
      }
      ghost var was := Value();
      var changed := false;
      for i := 0 to |arrivals|
        invariant Value() == was.(assignments := RecordArrivals(was.assignments, id, arrivals[..i]))
        invariant changed == AnyAnswers(was.assignments, id, arrivals[..i])
      {
        assert arrivals[..i + 1][..i] == arrivals[..i];
        var key := arrivals[i].Key();
        if Answers(assignments, id, arrivals[i]) {
          assignments := assignments[key := Marked(assignments[key])];
          changed := true;
        }
      }
      assert arrivals[..|arrivals|] == arrivals;
      Bump(changed);
      return Done(changed);
    }

    method Bump(changed: bool)
      modifies this
      ensures Value() == old(Value()).Bumped(changed)
    {
      if changed {
        epoch := epoch + 1;
        Wake();
      }
    }

    /** Whoever waits is woken; later waits wait on another channel. */
    method Wake()
      modifies this`broadcast
      ensures broadcast == old(broadcast) + 1
    {
      broadcast := broadcast + 1;
    }

    /** A snapshot; expired grace entries are dropped on the way. */
    method CurrentState(now: Time) returns (st: ServerState)
      requires Keyed(assignments)
      modifies this`lastWait
      ensures Value() == old(Value()).(lastWait := old(Value()).InGrace(now))
      ensures old(Value()).IsSnapshot(now, st) && Ordering.Sorted(st.assignments)
    {
      var live := LiveHosts(now);
      var listed := Listed();
      st := ServerState(owner, epoch, activation, live, listed);
    }

    /** Maps the owner in any case, and every live host. */
    method LiveHosts(now: Time) returns (live: map<HostId, bool>)
      modifies this`lastWait
      ensures live == old(Value()).Live(now)
      ensures lastWait == old(Value()).InGrace(now)
    {
      ghost var was := Value();
      live := WaitingHosts();
      var inGrace := DropExpired(now);
      live := map id | id in live.Keys + inGrace :: (id in live && live[id]) || id in inGrace;
      assert live.Keys == was.Live(now).Keys;
    }

    /** The owner, not live on its own account, and every host that waits. */
    method WaitingHosts() returns (live: map<HostId, bool>)
      ensures live.Keys == {owner} + waiters.Keys
      ensures forall id | id in live :: live[id] == (id in waiters)
    {
      live := map[owner := false];
      var left := waiters.Keys;
      while left != {}
        invariant left <= waiters.Keys
        invariant live.Keys == {owner} + (waiters.Keys - left)
        invariant forall id | id in live :: live[id] == (id in waiters && id !in left)
        decreases |left|
      {
        var id :| id in left;
        live := live[id := true];
        left := left - {id};
      }
    }

    /** The hosts within their grace; the entries of the others are dropped. */
    method DropExpired(now: Time) returns (inGrace: set<HostId>)
      modifies this`lastWait
      ensures lastWait == old(Value()).InGrace(now) && inGrace == lastWait.Keys
    {
      inGrace := {};
      var left := lastWait.Keys;
      ghost var was, all := Value(), lastWait;
      while left != {}
        invariant left <= all.Keys && inGrace <= all.Keys && left !! inGrace
        invariant lastWait == map id | id in all && (id in left || id in inGrace) :: all[id]
        invariant waiters == was.waiters
        invariant forall id | id in all && id !in left :: id in inGrace <==> was.IsLive(id, now)
        decreases |left|
      {
        var id :| id in left;
        assert Value().IsLive(id, now) == was.IsLive(id, now);
        if Value().IsLive(id, now) {
          inGrace := inGrace + {id};
        } else {
          lastWait := lastWait - {id};
        }
        left := left - {id};
      }
      assert lastWait == was.InGrace(now);
    }

    /** The stored assignments in KeyLess order. */
    method Listed() returns (listed: seq<Assignment>)
      requires Keyed(assignments)
      ensures Lists(listed, assignments) && Ordering.Sorted(listed)
    {
      listed := [];
      var left := assignments.Keys;
      while left != {}
        invariant left <= assignments.Keys
        invariant Ordering.Sorted(listed)
        invariant forall a | a in listed ::
                    a.Key() in assignments && a.Key() !in left && assignments[a.Key()].assignment == a
        invariant forall key | key in assignments && key !in left :: assignments[key].assignment in listed
        decreases |left|
      {
        var key :| key in left;
        listed := Inserted(listed, assignments[key].assignment);
        left := left - {key};
      }
      SortedIsDistinct(listed);
    }

    static method Inserted(listed: seq<Assignment>, a: Assignment) returns (r: seq<Assignment>)
      requires Ordering.Sorted(listed) && forall b | b in listed :: b.Key() != a.Key()
      ensures Ordering.Sorted(r)
      ensures forall b :: b in r <==> b in listed || b == a
    {
      var i := 0;
      while i < |listed| && KeyLess(listed[i].Key(), a.Key())
        invariant i <= |listed|
        invariant forall k | 0 <= k < i :: KeyLess(listed[k].Key(), a.Key())
      {
        i := i + 1;
      }
      if i < |listed| {
        KeyLessIsTotal(listed[i].Key(), a.Key());
      }
      InsertedIsSorted(listed, i, a);
      r := listed[..i] + [a] + listed[i..];
      assert forall b :: b in listed <==> b in listed[..i] || b in listed[i..] by {
        assert listed == listed[..i] + listed[i..];
      }
    }

    /** A /wait on the current epoch registers and returns the channel it waits on; on any
        other epoch it answers at once. */
    method WaitOpen(id: HostId, knownEpoch: int, now: Time) returns (waitsOn: Option<nat>)
      modifies this
      ensures knownEpoch == old(epoch) ==> Value() == old(Value()).Registered(id) && waitsOn == Some(broadcast)
      ensures knownEpoch != old(epoch) ==>
                Value() == old(Value()).(lastWait := old(Value()).InGrace(now)) && waitsOn.None?
    {
      if knownEpoch != epoch {
        var _ := LiveHosts(now);
        return None;
      }
      waiters := waiters[id := (if id in waiters then waiters[id] else 0) + 1];
      return Some(broadcast);
    }

    method WaitClose(id: HostId, now: Time)
      modifies this
      ensures Value() == old(Value()).Deregistered(id, now)
    {
      var count := if id in waiters then waiters[id] else 0;
      if count <= 1 {
        waiters := waiters - {id};
        lastWait := lastWait[id := now];
      } else {
        waiters := waiters[id := count - 1];
      }
    }
  }
}
