/** The worker: what carrying out one decision reports, in whatever order its goroutines end. */
module Working {
  import opened Options
  import opened State
  import opened Jobs

  /** The receiver a declared device is behind. */
  datatype Target = Target(vid: nat, pid: nat)

  /** The hardware a write goes through: a receiver, or the thing of that name alone. */
  datatype Queue = Receiver(target: Target) | Own(key: AssignmentKey)

  function WriteQueue(hids: map<string, Target>, h: Assignment): Queue {
    if h.name in hids && h.kind == KIND_HID then Receiver(hids[h.name]) else Own(h.Key())
  }

  /** The assignments of one queue, in order. */
  function InQueue(hids: map<string, Target>, assignments: seq<Assignment>, q: Queue): seq<Assignment> {
    if assignments == [] then []
    else
      var a := assignments[|assignments| - 1];
      InQueue(hids, assignments[..|assignments| - 1], q) + if WriteQueue(hids, a) == q then [a] else []
  }

  function QueueAt(queues: map<Queue, seq<Assignment>>, q: Queue): seq<Assignment> {
    if q in queues then queues[q] else []
  }

  lemma InQueueAdd(hids: map<string, Target>, assignments: seq<Assignment>, a: Assignment, q: Queue)
    ensures InQueue(hids, assignments + [a], q)
         == InQueue(hids, assignments, q) + if WriteQueue(hids, a) == q then [a] else []
  {
    assert (assignments + [a])[..|assignments|] == assignments;
  }

  /** Every assignment is in its own queue, as often as in the batch. */
  /** The assignments whose hardware a receiver is: of a device declared behind it. */
  function BehindReceiver(hids: map<string, Target>, assignments: seq<Assignment>, target: Target): seq<Assignment> {
    if assignments == [] then []
    else
      var a := assignments[|assignments| - 1];
      BehindReceiver(hids, assignments[..|assignments| - 1], target)
      + if a.kind == "hid" && a.name in hids && hids[a.name] == target then [a] else []
  }

  lemma {:induction false} QueueOfReceiver(hids: map<string, Target>, assignments: seq<Assignment>, target: Target)
    ensures InQueue(hids, assignments, Receiver(target)) == BehindReceiver(hids, assignments, target)
  {
    if assignments != [] {
      QueueOfReceiver(hids, assignments[..|assignments| - 1], target);
    }
  }

  /** Writes share a queue exactly when they share hardware: devices declared behind one receiver, or
      one and the same thing. */
  lemma QueuesApart(hids: map<string, Target>, a: Assignment, b: Assignment)
    ensures WriteQueue(hids, a) == WriteQueue(hids, b) <==>
              || (a.kind == b.kind == "hid" && a.name in hids && b.name in hids && hids[a.name] == hids[b.name])
              || (a.kind == b.kind && a.name == b.name)
  {
  }

  lemma {:induction false} CountInQueue(hids: map<string, Target>, assignments: seq<Assignment>, a: Assignment)
    ensures multiset(InQueue(hids, assignments, WriteQueue(hids, a)))[a] == multiset(assignments)[a]
  {
    if assignments != [] {
      var init, last := assignments[..|assignments| - 1], assignments[|assignments| - 1];
      CountInQueue(hids, init, a);
      assert assignments == init + [last];
    }
  }

  lemma PartCounts(hids: map<string, Target>, written: seq<Assignment>, assignments: seq<Assignment>, a: Assignment)
    requires InQueue(hids, written, WriteQueue(hids, a)) <= InQueue(hids, assignments, WriteQueue(hids, a))
    ensures multiset(written)[a] <= multiset(assignments)[a]
  {
    CountInQueue(hids, written, a);
    CountInQueue(hids, assignments, a);
    var w, all := InQueue(hids, written, WriteQueue(hids, a)), InQueue(hids, assignments, WriteQueue(hids, a));
    assert all == w + all[|w|..];
  }

  /** Queue by queue a part of the batch: no more than the batch. */
  lemma PartOfBatch(hids: map<string, Target>, written: seq<Assignment>, assignments: seq<Assignment>)
    requires forall q :: InQueue(hids, written, q) <= InQueue(hids, assignments, q)
    ensures multiset(written) <= multiset(assignments) && |written| <= |assignments|
  {
    forall a
      ensures multiset(written)[a] <= multiset(assignments)[a]
    {
      PartCounts(hids, written, assignments, a);
    }
    var w, all := multiset(written), multiset(assignments);
    assert all == w + (all - w);
    assert |all| == |w| + |all - w|;
  }

  lemma WholeBatch(hids: map<string, Target>, written: seq<Assignment>, assignments: seq<Assignment>)
    requires forall q :: InQueue(hids, written, q) == InQueue(hids, assignments, q)
    ensures multiset(written) == multiset(assignments)
  {
    PartOfBatch(hids, written, assignments);
    PartOfBatch(hids, assignments, written);
  }

  /** The last assignment of a name. */
  function LastOf(assignments: seq<Assignment>, key: AssignmentKey): Option<Assignment> {
    if assignments == [] then None
    else
      var a := assignments[|assignments| - 1];
      if a.Key() == key then Some(a) else LastOf(assignments[..|assignments| - 1], key)
  }

  function KeysOf(assignments: seq<Assignment>): set<AssignmentKey> {
    set a | a in assignments :: a.Key()
  }

  lemma LastOfAdd(assignments: seq<Assignment>, a: Assignment, key: AssignmentKey)
    ensures LastOf(assignments + [a], key) == if a.Key() == key then Some(a) else LastOf(assignments, key)
  {
    assert (assignments + [a])[..|assignments|] == assignments;
  }

  lemma {:induction false} LastOfFacts(assignments: seq<Assignment>, key: AssignmentKey)
    ensures LastOf(assignments, key).Some? <==> key in KeysOf(assignments)
    ensures LastOf(assignments, key).Some? ==>
              LastOf(assignments, key).value in assignments && LastOf(assignments, key).value.Key() == key
  {
    if assignments != [] {
      var init, a := assignments[..|assignments| - 1], assignments[|assignments| - 1];
      LastOfFacts(init, key);
      assert assignments == init + [a];
      assert KeysOf(assignments) == KeysOf(init) + {a.Key()};
    }
  }

  /** Equal names share a queue, so the last of a name is the last in its queue. */
  lemma {:induction false} LastInQueue(hids: map<string, Target>, assignments: seq<Assignment>, a: Assignment)
    ensures LastOf(InQueue(hids, assignments, WriteQueue(hids, a)), a.Key()) == LastOf(assignments, a.Key())
  {
    if assignments != [] {
      var init, last := assignments[..|assignments| - 1], assignments[|assignments| - 1];
      LastInQueue(hids, init, a);
      var q := WriteQueue(hids, a);
      if WriteQueue(hids, last) == q {
        LastOfAdd(InQueue(hids, init, q), last, a.Key());
      } else {
        assert InQueue(hids, assignments, q) == InQueue(hids, init, q);
      }
    }
  }

  /** The batch, queue by queue: what is written, then what its queue still holds. */
  ghost predicate Splits(hids: map<string, Target>, assignments: seq<Assignment>, written: seq<Assignment>,
                         queues: map<Queue, seq<Assignment>>)
  {
    forall q :: InQueue(hids, written, q) + QueueAt(queues, q) == InQueue(hids, assignments, q)
  }

  /** One result per name written, that of its last write. */
  ghost predicate Reported(results: map<AssignmentKey, Result>, written: seq<Assignment>, write: Assignment -> Result) {
    && (forall key :: key in results <==> LastOf(written, key).Some?)
    && (forall key | key in results :: results[key] == write(LastOf(written, key).value))
  }

  lemma WriteKeepsSplit(hids: map<string, Target>, assignments: seq<Assignment>, written: seq<Assignment>,
                        queues: map<Queue, seq<Assignment>>, q: Queue)
    requires Splits(hids, assignments, written, queues) && q in queues && queues[q] != []
    ensures Splits(hids, assignments, written + [queues[q][0]], queues[q := queues[q][1..]])
    ensures |written| < |assignments|
  {
    var h, queues' := queues[q][0], queues[q := queues[q][1..]];
    QueueHeads(hids, assignments, written, queues, q);
    forall q'
      ensures InQueue(hids, written + [h], q') + QueueAt(queues', q') == InQueue(hids, assignments, q')
    {
      InQueueAdd(hids, written, h, q');
    }
    SplitIsPart(hids, assignments, written + [h], queues');
  }

  lemma SplitIsPart(hids: map<string, Target>, assignments: seq<Assignment>, written: seq<Assignment>,
                    queues: map<Queue, seq<Assignment>>)
    requires Splits(hids, assignments, written, queues)
    ensures |written| <= |assignments|
  {
    forall q
      ensures InQueue(hids, written, q) <= InQueue(hids, assignments, q)
    {
      assert InQueue(hids, written, q) + QueueAt(queues, q) == InQueue(hids, assignments, q);
    }
    PartOfBatch(hids, written, assignments);
  }

  lemma WriteKeepsReports(results: map<AssignmentKey, Result>, written: seq<Assignment>, write: Assignment -> Result,
                          h: Assignment)
    requires Reported(results, written, write)
    ensures Reported(results[h.Key() := write(h)], written + [h], write)
  {
    forall key {
      LastOfAdd(written, h, key);
    }
  }

  method QueueUp(hids: map<string, Target>, assignments: seq<Assignment>) returns (queues: map<Queue, seq<Assignment>>)
    ensures forall q :: QueueAt(queues, q) == InQueue(hids, assignments, q)
  {
    queues := map[];
    for i := 0 to |assignments|
      invariant forall q :: QueueAt(queues, q) == InQueue(hids, assignments[..i], q)
    {
      var h := assignments[i];
      var q := WriteQueue(hids, h);
      assert assignments[..i + 1] == assignments[..i] + [h];
      forall q' {
        InQueueAdd(hids, assignments[..i], h, q');
      }
      queues := queues[q := QueueAt(queues, q) + [h]];
    }
    assert assignments[..|assignments|] == assignments;
  }

  /** Gives a batch away, one goroutine a queue; write says how each write ends. One result per
      name of the batch, whatever the interleaving, each that of the last write of that name;
      written is the order of the writes, which keeps the order of the batch in every queue. */
  method GiveAwayAll(hids: map<string, Target>, assignments: seq<Assignment>, write: Assignment -> Result)
    returns (results: map<AssignmentKey, Result>, written: seq<Assignment>)
    ensures multiset(written) == multiset(assignments)
    ensures forall q :: InQueue(hids, written, q) == InQueue(hids, assignments, q)
    ensures forall target :: BehindReceiver(hids, written, target) == BehindReceiver(hids, assignments, target)
    ensures results.Keys == KeysOf(assignments)
    ensures forall key | key in results ::
              LastOf(assignments, key).Some? && results[key] == write(LastOf(assignments, key).value)
  {
    var queues := QueueUp(hids, assignments);
    results, written := map[], [];
    while exists q :: q in queues && queues[q] != []
      invariant Splits(hids, assignments, written, queues)
      invariant Reported(results, written, write)
      decreases |assignments| - |written|
    {
      var q :| q in queues && queues[q] != [];
      var h := queues[q][0];
      WriteKeepsSplit(hids, assignments, written, queues, q);
      WriteKeepsReports(results, written, write, h);
      queues, written, results := queues[q := queues[q][1..]], written + [h], results[h.Key() := write(h)];
    }
    forall q
      ensures InQueue(hids, written, q) == InQueue(hids, assignments, q)
    {
      assert QueueAt(queues, q) == [];
      assert InQueue(hids, written, q) + QueueAt(queues, q) == InQueue(hids, assignments, q);
    }
    WholeBatch(hids, written, assignments);
    SameLast(hids, written, assignments);
    forall target
      ensures BehindReceiver(hids, written, target) == BehindReceiver(hids, assignments, target)
    {
      QueueOfReceiver(hids, written, target);
      QueueOfReceiver(hids, assignments, target);
    }
  }

  /** What is left in a queue belongs to it. */
  lemma QueueHeads(hids: map<string, Target>, assignments: seq<Assignment>, written: seq<Assignment>,
                   queues: map<Queue, seq<Assignment>>, q: Queue)
    requires InQueue(hids, written, q) + QueueAt(queues, q) == InQueue(hids, assignments, q)
    requires q in queues && queues[q] != []
    ensures WriteQueue(hids, queues[q][0]) == q
  {
    InQueueBelongs(hids, assignments, q);
    assert queues[q][0] in InQueue(hids, written, q) + QueueAt(queues, q);
  }

  lemma {:induction false} InQueueBelongs(hids: map<string, Target>, assignments: seq<Assignment>, q: Queue)
    ensures forall a | a in InQueue(hids, assignments, q) :: WriteQueue(hids, a) == q
  {
    if assignments != [] {
      InQueueBelongs(hids, assignments[..|assignments| - 1], q);
    }
  }

  lemma SameLast(hids: map<string, Target>, written: seq<Assignment>, assignments: seq<Assignment>)
    requires forall q :: InQueue(hids, written, q) == InQueue(hids, assignments, q)
    ensures forall key :: LastOf(written, key) == LastOf(assignments, key)
    ensures forall key :: LastOf(written, key).Some? <==> key in KeysOf(assignments)
  {
    forall key
      ensures LastOf(written, key) == LastOf(assignments, key)
      ensures LastOf(written, key).Some? <==> key in KeysOf(assignments)
    {
      var a := Assignment(key.kind, key.name, "", "", 0, "", 0, false);
      LastInQueue(hids, written, a);
      LastInQueue(hids, assignments, a);
      LastOfFacts(assignments, key);
    }
  }

  /** run says how the i-th command ends; they end in any order, and each result is at the index
      of its command. */
  method RunCommands(cmds: seq<Command>, run: nat -> Result) returns (results: seq<Result>)
    ensures |results| == |cmds| && forall i | 0 <= i < |cmds| :: results[i] == run(i)
  {
    results := seq(|cmds|, i => Success);
    var running: seq<nat> := seq(|cmds|, i => i);
    forall i | 0 <= i < |cmds|
      ensures i in running
    {
      assert running[i] == i;
    }
    while running != []
      invariant |results| == |cmds| && forall k | 0 <= k < |running| :: running[k] < |cmds|
      invariant forall i | 0 <= i < |cmds| :: i in running || results[i] == run(i)
      decreases |running|
    {
      var k :| 0 <= k < |running|;
      var i, rest := running[k], running[..k] + running[k + 1..];
      forall j | j in running && j != i
        ensures j in rest
      {
        var n :| 0 <= n < |running| && running[n] == j;
        assert j == if n < k then rest[n] else rest[n - 1];
      }
      results, running := results[i := run(i)], rest;
    }
  }
}
