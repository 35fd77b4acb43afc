/** The wire types of the coordinator and the printed form of an assignment key. */
module Options {
  datatype Option<+T> = None | Some(value: T)
}

module State {
  import opened Options

  type HostId = string
  type Seq = int
  /** Nanoseconds. The zero time of the source, "never", is None of an Option<Time>. */
  type Time = int

  const KIND_SCREEN := "screen"
  const KIND_HID := "hid"

  datatype AssignmentKey = AssignmentKey(kind: string, name: string) {
    predicate Valid() {
      (kind == KIND_SCREEN || kind == KIND_HID) && name != ""
    }

    function ToString(): string {
      kind + "/" + name
    }
  }

  /** The text before and after the first separator. */
  function Cut(s: string, sep: char): Option<(string, string)> {
    if s == "" then None
    else if s[0] == sep then Some(("", s[1..]))
    else match Cut(s[1..], sep)
      case None => None
      case Some((before, after)) => Some(([s[0]] + before, after))
  }

  function ParseAssignmentKey(s: string): Option<AssignmentKey> {
    match Cut(s, '/')
    case None => None
    case Some((kind, name)) =>
      var key := AssignmentKey(kind, name);
      if key.Valid() then Some(key) else None
  }

  lemma {:induction false} CutJoins(s: string, sep: char)
    ensures match Cut(s, sep)
            case None => sep !in s
            case Some((before, after)) => s == before + [sep] + after && sep !in before
  {
    if s != "" && s[0] != sep {
      CutJoins(s[1..], sep);
      assert s == [s[0]] + s[1..];
    }
  }

  lemma {:induction false} CutAtFirst(before: string, sep: char, after: string)
    requires sep !in before
    ensures Cut(before + [sep] + after, sep) == Some((before, after))
  {
    var s := before + [sep] + after;
    if before == "" {
      assert s[1..] == after;
    } else {
      CutAtFirst(before[1..], sep, after);
      assert before == [before[0]] + before[1..];
      assert s[1..] == before[1..] + [sep] + after;
    }
  }

  /** Printing then parsing gives the key back exactly when the key is valid,
      whatever its name holds: a name may contain "/". */
  lemma ParsePrinted(key: AssignmentKey)
    ensures ParseAssignmentKey(key.ToString()) == Some(key) <==> key.Valid()
  {
    if key.Valid() {
      assert key.ToString() == key.kind + ['/'] + key.name;
      assert '/' !in KIND_SCREEN && '/' !in KIND_HID;
      CutAtFirst(key.kind, '/', key.name);
    }
  }

  /** Only the printed form of a valid key parses. */
  lemma PrintParsed(s: string)
    ensures match ParseAssignmentKey(s)
            case None => forall key: AssignmentKey | key.Valid() :: key.ToString() != s
            case Some(key) => key.Valid() && key.ToString() == s
  {
    CutJoins(s, '/');
    forall key: AssignmentKey | key.Valid() && key.ToString() == s
      ensures ParseAssignmentKey(s) == Some(key)
    {
      ParsePrinted(key);
    }
  }

  lemma PrintInjective(a: AssignmentKey, b: AssignmentKey)
    requires a.Valid() && b.Valid() && a.ToString() == b.ToString()
    ensures a == b
  {
    ParsePrinted(a);
    ParsePrinted(b);
  }

  /** One entry of a state. */
  datatype Assignment = Assignment(kind: string, name: string, assignee: HostId, prev: HostId,
                                   seqno: Seq, input: string, channel: nat, arrived: bool)
  {
    function Key(): AssignmentKey {
      AssignmentKey(kind, name)
    }
  }

  /** What /state answers. */
  datatype ServerState = ServerState(owner: HostId, epoch: int, activation: int,
                                     live: map<HostId, bool>, assignments: seq<Assignment>)
  {
    predicate IsLive(id: HostId) {
      id in live && live[id]
    }
  }

  /** Each key is listed at most once: the server keeps its assignments in a map. */
  ghost predicate DistinctKeys(assignments: seq<Assignment>) {
    forall i, j | 0 <= i < j < |assignments| :: assignments[i].Key() != assignments[j].Key()
  }

  /** The contents of agent.json. */
  datatype AgentState = AgentState(handledOwner: HostId, handledActivation: int, handledSeqs: map<string, Seq>)

  /** The assignments indexed by key, the last listed winning. */
  function ByKey(assignments: seq<Assignment>): map<AssignmentKey, Assignment> {
    if assignments == [] then map[]
    else
      var last := assignments[|assignments| - 1];
      ByKey(assignments[..|assignments| - 1])[last.Key() := last]
  }

  method AssignmentsByKey(s: ServerState) returns (m: map<AssignmentKey, Assignment>)
    ensures m == ByKey(s.assignments)
  {
    m := map[];
    for i := 0 to |s.assignments|
      invariant m == ByKey(s.assignments[..i])
    {
      assert s.assignments[..i + 1][..i] == s.assignments[..i];
      m := m[s.assignments[i].Key() := s.assignments[i]];
    }
    assert s.assignments[..|s.assignments|] == s.assignments;
  }

  lemma {:induction false} ByKeyMembers(assignments: seq<Assignment>)
    ensures forall k | k in ByKey(assignments) ::
              ByKey(assignments)[k].Key() == k && ByKey(assignments)[k] in assignments
    ensures forall a | a in assignments :: a.Key() in ByKey(assignments)
    ensures DistinctKeys(assignments) ==> forall a | a in assignments :: ByKey(assignments)[a.Key()] == a
  {
    if assignments != [] {
      var n := |assignments| - 1;
      var init := assignments[..n];
      ByKeyMembers(init);
      assert forall a | a in assignments :: a in init || a == assignments[n];
      if DistinctKeys(assignments) {
        assert forall i | 0 <= i < n :: init[i] == assignments[i];
        assert DistinctKeys(init);
      }
    }
  }
}
