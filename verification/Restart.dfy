/** What a restart finds: the record saved is the record in memory. */
module Restart {
  import opened Options
  import opened State
  import opened Policy
  import opened Jobs
  import opened Deciding
  import Runs

  /** What agent.json holds after the decisions' saves. */
  function DiskAfter(disk: Option<AgentState>, ds: seq<Decision>): Option<AgentState> {
    if ds == [] then disk
    else
      var d := ds[|ds| - 1];
      if d.save.Some? then d.save else DiskAfter(disk, ds[..|ds| - 1])
  }

  lemma {:induction false} DiskAfterConcat(disk: Option<AgentState>, a: seq<Decision>, b: seq<Decision>)
    ensures DiskAfter(disk, a + b) == DiskAfter(DiskAfter(disk, a), b)
  {
    if b == [] {
      assert a + b == a;
    } else {
      DiskAfterConcat(disk, a, b[..|b| - 1]);
      assert (a + b)[..|a + b| - 1] == a + b[..|b| - 1] && (a + b)[|a + b| - 1] == b[|b| - 1];
    }
  }

  /** agent.json holds exactly the record in memory, and nothing before there is one. */
  ghost predicate DiskMatches(m: DeciderState, disk: Option<AgentState>)
    requires m.WellFormed()
  {
    disk == if m.handled.None? then None else Some(m.handled.value.Persisted())
  }

  lemma TurnKeepsDisk(m: DeciderState, now: Time, disk: Option<AgentState>)
    requires m.WellFormed() && DiskMatches(m, disk)
    ensures m.TakeTurn(now).m.WellFormed()
    ensures DiskMatches(m.TakeTurn(now).m, DiskAfter(disk, m.TakeTurn(now).decisions))
  {
    TurnKeepsWellFormed(m, now);
    var ds := m.TakeTurn(now).decisions;
    if ds != [] {
      assert ds[..0] == [];
    }
  }

  lemma AdvanceKeepsDisk(m: DeciderState, now: Time, disk: Option<AgentState>)
    requires m.WellFormed() && DiskMatches(m, disk)
    ensures m.AdvanceTime(now).0.WellFormed()
    ensures DiskMatches(m.AdvanceTime(now).0, DiskAfter(disk, m.AdvanceTime(now).1))
    decreases m.OldJob(now), m.OpenEdge(), m.UnhandledCount(), m.DueClaim(now), m.JobToBuild()
  {
    AdvanceTimeUnfolds(m, now);
    TurnKeepsDisk(m, now, disk);
    var t := m.TakeTurn(now);
    if !t.stop {
      TurnDecreases(m, now);
      AdvanceKeepsDisk(t.m, now, DiskAfter(disk, t.decisions));
      DiskAfterConcat(disk, t.decisions, t.m.AdvanceTime(now).1);
    }
  }

  lemma DecideKeepsDisk(m: DeciderState, now: Time, o: Observation, disk: Option<AgentState>)
    requires m.WellFormed() && ValidObservation(o) && DiskMatches(m, disk)
    ensures m.Decide(now, o).0.WellFormed()
    ensures DiskMatches(m.Decide(now, o).0, DiskAfter(disk, m.Decide(now, o).1))
  {
    ObserveKeepsWellFormed(m, now, o);
    var (seen, ds) := m.Observe(now, o);
    assert DiskMatches(seen, DiskAfter(disk, ds)) by {
      if ds != [] {
        assert ds[..0] == [];
      }
    }
    AdvanceKeepsDisk(seen, now, DiskAfter(disk, ds));
    DiskAfterConcat(disk, ds, seen.AdvanceTime(now).1);
  }

  /** key is stored under its printed form, which parses back. */
  lemma PersistedKey(h: Handled, key: AssignmentKey)
    requires ValidKeys(h.seqs) && key in h.seqs
    ensures var stored := h.Persisted().handledSeqs;
            key.ToString() in stored && stored[key.ToString()] == h.seqs[key]
    ensures ParseAssignmentKey(key.ToString()) == Some(key)
  {
    assert key.Valid();
    ParsePrinted(key);
    PrintsApart();
  }

  lemma PersistedParses(h: Handled, s: string)
    requires ValidKeys(h.seqs) && s in h.Persisted().handledSeqs
    ensures ParseAssignmentKey(s).Some? && ParseAssignmentKey(s).value in h.seqs
    ensures ParseAssignmentKey(s).value.ToString() == s
  {
    var key :| key in h.seqs && key.ToString() == s;
    PersistedKey(h, key);
  }

  /** Rebuilding from what was persisted gives the record back. */
  lemma RestoresPersisted(h: Handled)
    requires ValidKeys(h.seqs)
    ensures Restored(h.Persisted()) == Some(h)
  {
    var stored := h.Persisted().handledSeqs;
    forall s {:trigger ParseAssignmentKey(s)} | s in stored
      ensures ParseAssignmentKey(s).Some? && ParseAssignmentKey(s).value in h.seqs
      ensures ParseAssignmentKey(s).value.ToString() == s
    {
      PersistedParses(h, s);
    }
    var parsed := ParsedSeqs(stored);
    forall key | key in h.seqs
      ensures key in parsed && parsed[key] == h.seqs[key]
    {
      PersistedKey(h, key);
    }
    assert parsed == h.seqs;
  }

  lemma RestoredKey(rec: AgentState, key: AssignmentKey)
    requires Restored(rec).Some? && key in Restored(rec).value.seqs
    ensures key.Valid() && key.ToString() in rec.handledSeqs
    ensures Restored(rec).value.seqs[key] == rec.handledSeqs[key.ToString()]
  {
    var s :| s in rec.handledSeqs && ParseAssignmentKey(s).value == key;
    PrintParsed(s);
  }

  lemma RestoredString(rec: AgentState, s: string)
    requires Restored(rec).Some? && s in rec.handledSeqs
    ensures ParseAssignmentKey(s).Some? && ParseAssignmentKey(s).value in Restored(rec).value.seqs
    ensures ParseAssignmentKey(s).value.ToString() == s
  {
    assert ParseAssignmentKey(s).Some?;
    PrintParsed(s);
  }

  lemma RestoredKeysAreValid(rec: AgentState)
    requires Restored(rec).Some?
    ensures ValidKeys(Restored(rec).value.seqs)
  {
    forall key {:trigger key.Valid()} | key in Restored(rec).value.seqs
      ensures key.Valid()
    {
      RestoredKey(rec, key);
    }
  }

  lemma RestoredIsStored(rec: AgentState, s: string)
    requires Restored(rec).Some? && ValidKeys(Restored(rec).value.seqs)
    ensures var stored := Restored(rec).value.Persisted().handledSeqs;
            && (s in rec.handledSeqs ==> s in stored && stored[s] == rec.handledSeqs[s])
            && (s in stored ==> s in rec.handledSeqs)
  {
    var h := Restored(rec).value;
    if s in rec.handledSeqs {
      RestoredString(rec, s);
      PersistedKey(h, ParseAssignmentKey(s).value);
      RestoredKey(rec, ParseAssignmentKey(s).value);
    } else if s in h.Persisted().handledSeqs {
      PersistedParses(h, s);
      RestoredKey(rec, ParseAssignmentKey(s).value);
    }
  }

  lemma SameMap(a: map<string, Seq>, b: map<string, Seq>)
    requires forall s :: (s in a ==> s in b && b[s] == a[s]) && (s in b ==> s in a)
    ensures a == b
  {
  }

  /** Persisting what was restored gives agent.json back. */
  lemma PersistsRestored(rec: AgentState)
    requires Restored(rec).Some?
    ensures ValidKeys(Restored(rec).value.seqs) && Restored(rec).value.Persisted() == rec
  {
    RestoredKeysAreValid(rec);
    var stored := Restored(rec).value.Persisted().handledSeqs;
    forall s
      ensures s in rec.handledSeqs ==> s in stored && stored[s] == rec.handledSeqs[s]
      ensures s in stored ==> s in rec.handledSeqs
    {
      RestoredIsStored(rec, s);
    }
    SameMap(rec.handledSeqs, stored);
  }

  /** agent.json after a run that started from disk. */
  ghost function DiskOf(cfg: Config, disk: Option<AgentState>, handled: Option<Handled>, events: seq<Runs.Event>)
    : Option<AgentState>
    requires Runs.ValidStart(cfg, handled) && Runs.ValidRun(events)
  {
    if events == [] then disk
    else
      Runs.LastStep(cfg, handled, events);
      var init, e := events[..|events| - 1], events[|events| - 1];
      DiskAfter(DiskOf(cfg, disk, handled, init), Runs.RunOf(cfg, handled, init).Decide(e.now, e.o).1)
  }

  /** The record agent.json starts a decider from. */
  ghost predicate StartsFrom(disk: Option<AgentState>, handled: Option<Handled>) {
    if disk.None? then handled.None? else handled.Some? && handled == Restored(disk.value)
  }

  lemma {:induction false} RunKeepsDisk(cfg: Config, disk: Option<AgentState>, handled: Option<Handled>,
                                        events: seq<Runs.Event>)
    requires Runs.ValidStart(cfg, handled) && Runs.ValidRun(events) && StartsFrom(disk, handled)
    ensures DiskMatches(Runs.RunOf(cfg, handled, events), DiskOf(cfg, disk, handled, events))
  {
    if events == [] {
      if disk.Some? {
        PersistsRestored(disk.value);
      }
    } else {
      Runs.LastStep(cfg, handled, events);
      var init, e := events[..|events| - 1], events[|events| - 1];
      RunKeepsDisk(cfg, disk, handled, init);
      DecideKeepsDisk(Runs.RunOf(cfg, handled, init), e.now, e.o, DiskOf(cfg, disk, handled, init));
    }
  }

  /** After any run, whatever it started from, a restart from agent.json handles exactly what
      was handled: the record is rebuilt whole, and no key fails to parse. */
  lemma RestartIsDurable(cfg: Config, disk: Option<AgentState>, handled: Option<Handled>, events: seq<Runs.Event>)
    requires Runs.ValidStart(cfg, handled) && Runs.ValidRun(events) && StartsFrom(disk, handled)
    ensures var m, disk' := Runs.RunOf(cfg, handled, events), DiskOf(cfg, disk, handled, events);
            StartsFrom(disk', m.handled)
  {
    RunKeepsDisk(cfg, disk, handled, events);
    var m := Runs.RunOf(cfg, handled, events);
    if m.handled.Some? {
      RestoresPersisted(m.handled.value);
    }
  }
}
