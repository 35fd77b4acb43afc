/** The configuration, and the limiter: after a try a name rests, and too many tries of one name
    rest them all. */
module Policy {
  import opened State

  datatype Config = Config(id: HostId,
                           onActivation: seq<seq<string>>, onDeactivation: seq<seq<string>>,
                           settle: Time, switchRetries: nat, retrySpacing: Time, arrivalWindow: Time,
                           cooldown: Time, breakerWindow: Time, breakerMax: nat, breakerPause: Time)
  {
    /** What the connect flags guarantee: no empty command, and positive durations. */
    predicate Valid() {
      && (forall i | 0 <= i < |onActivation| :: onActivation[i] != [])
      && (forall i | 0 <= i < |onDeactivation| :: onDeactivation[i] != [])
      && settle > 0 && retrySpacing > 0 && arrivalWindow > 0
      && cooldown > 0 && breakerWindow > 0 && breakerMax >= 1 && breakerPause > 0
    }

    function MaxAttempts(): nat {
      1 + switchRetries
    }

    /** How far back the limiter ever looks. */
    function Horizon(): Time {
      if breakerWindow < cooldown then cooldown else breakerWindow
    }
  }
}

module RateLimiting {
  import opened Options
  import opened State
  import opened Policy

  /** The attempts made after cutoff, in order. */
  function After(attempts: seq<Time>, cutoff: Time): seq<Time> {
    if attempts == [] then []
    else
      var n := |attempts| - 1;
      After(attempts[..n], cutoff) + if attempts[n] > cutoff then [attempts[n]] else []
  }

  function AttemptsOf(attempts: map<AssignmentKey, seq<Time>>, key: AssignmentKey): seq<Time> {
    if key in attempts then attempts[key] else []
  }

  function CooldownAfter(cfg: Config, attempts: seq<Time>): Option<Time> {
    if attempts == [] then None else Some(attempts[|attempts| - 1] + cfg.cooldown)
  }

  function PauseAfter(cfg: Config, trippedAt: Option<Time>): Option<Time> {
    match trippedAt case None => None case Some(at) => Some(at + cfg.breakerPause)
  }

  /** The later of the two ends, each counted only while it is still ahead. */
  function LaterAhead(now: Time, cooldownEnds: Option<Time>, pauseEnds: Option<Time>): Option<Time> {
    var until := if cooldownEnds.Some? && now < cooldownEnds.value then cooldownEnds else None;
    if pauseEnds.Some? && now < pauseEnds.value && (until.None? || pauseEnds.value > until.value) then pauseEnds
    else until
  }

  /** What is kept: tries not yet out of sight, by name, and when the breaker last went. */
  datatype Limits = Limits(recent: map<AssignmentKey, seq<Time>>, trippedAt: Option<Time>) {
    function CooldownEnds(cfg: Config, key: AssignmentKey): Option<Time> {
      CooldownAfter(cfg, AttemptsOf(recent, key))
    }

    function PauseEnds(cfg: Config): Option<Time> {
      PauseAfter(cfg, trippedAt)
    }

    function LimitedUntil(cfg: Config, now: Time, key: AssignmentKey): Option<Time> {
      LaterAhead(now, CooldownEnds(cfg, key), PauseEnds(cfg))
    }

    function Count(cfg: Config, now: Time, key: AssignmentKey): Limits {
      var made := AttemptsOf(recent, key);
      Limits(recent[key := After(made, now - cfg.Horizon()) + [now]],
             if |After(made, now - cfg.breakerWindow)| + 1 >= cfg.breakerMax then Some(now) else trippedAt)
    }

    function CountAll(cfg: Config, now: Time, keys: seq<AssignmentKey>): Limits {
      if keys == [] then this
      else CountAll(cfg, now, keys[..|keys| - 1]).Count(cfg, now, keys[|keys| - 1])
    }
  }

  const NO_ATTEMPTS := Limits(map[], None)

  class RateLimiter {
    const cfg: Config
    var recent: map<AssignmentKey, seq<Time>>
    var trippedAt: Option<Time>

    function Value(): Limits
      reads this
    {
      Limits(recent, trippedAt)
    }

    constructor (cfg: Config)
      ensures this.cfg == cfg && Value() == NO_ATTEMPTS
    {
      this.cfg := cfg;
      recent, trippedAt := map[], None;
    }

    /** One more try at now; those out of sight are forgotten, and enough of them start a pause. */
    method Count(now: Time, key: AssignmentKey)
      modifies this
      ensures Value() == old(Value()).Count(cfg, now, key)
    {
      var made := AttemptsOf(recent, key);
      var cutoff := now - cfg.Horizon();
      var inWindow := 1;
      var kept := [];
      for i := 0 to |made|
        invariant kept == After(made[..i], cutoff)
        invariant inWindow == 1 + |After(made[..i], now - cfg.breakerWindow)|
      {
        assert made[..i + 1][..i] == made[..i];
        if made[i] > cutoff {
          kept := kept + [made[i]];
        }
        if made[i] > now - cfg.breakerWindow {
          inWindow := inWindow + 1;
        }
      }
      assert made[..|made|] == made;
      recent := recent[key := kept + [now]];
      if inWindow >= cfg.breakerMax {
        trippedAt := Some(now);
      }
    }
  }

  /** The simple limiter: it keeps every attempt ever made. */
  datatype History = History(attempts: map<AssignmentKey, seq<Time>>, trippedAt: Option<Time>) {
    function Of(key: AssignmentKey): seq<Time> {
      AttemptsOf(attempts, key)
    }

    function Record(cfg: Config, now: Time, key: AssignmentKey): History {
      var all := Of(key) + [now];
      History(attempts[key := all], if Trips(cfg, all, |all| - 1) then Some(now) else trippedAt)
    }

    function RecordAll(cfg: Config, now: Time, keys: seq<AssignmentKey>): History {
      if keys == [] then this
      else RecordAll(cfg, now, keys[..|keys| - 1]).Record(cfg, now, keys[|keys| - 1])
    }

    function LimitedUntil(cfg: Config, now: Time, key: AssignmentKey): Option<Time> {
      LaterAhead(now, CooldownAfter(cfg, Of(key)), PauseAfter(cfg, trippedAt))
    }
  }

  /** Attempt i makes breakerMax attempts within breakerWindow, itself included. */
  predicate Trips(cfg: Config, attempts: seq<Time>, i: nat)
    requires i < |attempts|
  {
    |After(attempts[..i + 1], attempts[i] - cfg.breakerWindow)| >= cfg.breakerMax
  }

  const NO_HISTORY := History(map[], None)

  ghost predicate Sorted(attempts: seq<Time>) {
    forall i, j | 0 <= i <= j < |attempts| :: attempts[i] <= attempts[j]
  }

  /** Every attempt of every name is in order and no later than now. */
  ghost predicate Upto(h: History, now: Time) {
    && (forall key | key in h.attempts :: Sorted(h.attempts[key]) && forall at | at in h.attempts[key] :: at <= now)
    && (h.trippedAt.Some? ==> h.trippedAt.value <= now)
  }

  /** What the pruned limiter keeps of a name's attempts: those within the horizon of the last. */
  ghost predicate Pruned(horizon: Time, kept: seq<Time>, all: seq<Time>) {
    if all == [] then kept == [] else kept == After(all, all[|all| - 1] - horizon)
  }

  ghost predicate Refines(cfg: Config, l: Limits, h: History) {
    && l.trippedAt == h.trippedAt
    && l.recent.Keys == h.attempts.Keys
    && forall key | key in l.recent :: Pruned(cfg.Horizon(), l.recent[key], h.attempts[key])
  }

  lemma {:induction false} AfterConcat(a: seq<Time>, b: seq<Time>, cutoff: Time)
    ensures After(a + b, cutoff) == After(a, cutoff) + After(b, cutoff)
  {
    if b == [] {
      assert a + b == a;
    } else {
      var n := |b| - 1;
      AfterConcat(a, b[..n], cutoff);
      assert (a + b)[..|a + b| - 1] == a + b[..n];
    }
  }

  lemma {:induction false} AfterTwice(attempts: seq<Time>, early: Time, late: Time)
    requires early <= late
    ensures After(After(attempts, early), late) == After(attempts, late)
  {
    if attempts != [] {
      var n := |attempts| - 1;
      AfterTwice(attempts[..n], early, late);
      AfterConcat(After(attempts[..n], early), if attempts[n] > early then [attempts[n]] else [], late);
    }
  }

  /** Pruning never shows: the cooldown's end, the pause's end, until when a name is held
      back and whether the next attempt trips the breaker are those of the limiter that
      keeps everything. */
  lemma PrunedAnswersAlike(cfg: Config, l: Limits, h: History, now: Time, key: AssignmentKey)
    requires cfg.Valid() && Refines(cfg, l, h) && Upto(h, now)
    ensures l.CooldownEnds(cfg, key) == CooldownAfter(cfg, h.Of(key))
    ensures l.PauseEnds(cfg) == PauseAfter(cfg, h.trippedAt)
    ensures l.LimitedUntil(cfg, now, key) == h.LimitedUntil(cfg, now, key)
    ensures l.Count(cfg, now, key).trippedAt == h.Record(cfg, now, key).trippedAt
  {
    var all := h.Of(key);
    var more := all + [now];
    assert more[..|all|] == all && more[..|all| + 1] == more;
    if all != [] {
      assert all[|all| - 1] in h.attempts[key];
      AfterTwice(all, all[|all| - 1] - cfg.Horizon(), now - cfg.breakerWindow);
    }
  }

  lemma RecordUpto(cfg: Config, h: History, now: Time, key: AssignmentKey)
    requires Upto(h, now)
    ensures Upto(h.Record(cfg, now, key), now)
  {
    var all := h.Of(key);
    assert Sorted(all) && forall at | at in all :: at <= now;
    forall i, j | 0 <= i <= j < |all + [now]|
      ensures (all + [now])[i] <= (all + [now])[j]
    {
      if j == |all| && i < j {
        assert all[i] in all;
      }
    }
  }

  /** Pruning what was kept at the last attempt gives what pruning everything gives. */
  lemma KeptIsPruned(horizon: Time, kept: seq<Time>, all: seq<Time>, now: Time)
    requires horizon > 0 && Pruned(horizon, kept, all) && (all != [] ==> all[|all| - 1] <= now)
    ensures Pruned(horizon, After(kept, now - horizon) + [now], all + [now])
  {
    var cutoff := now - horizon;
    AfterConcat(all, [now], cutoff);
    assert After([now], cutoff) == [now] by {
      assert [now][..0] == [];
    }
    if all != [] {
      AfterTwice(all, all[|all| - 1] - horizon, cutoff);
    }
    assert (all + [now])[|all + [now]| - 1] == now;
  }

  lemma LastIsPast(h: History, now: Time, key: AssignmentKey)
    requires Upto(h, now)
    ensures h.Of(key) != [] ==> h.Of(key)[|h.Of(key)| - 1] <= now
  {
    if h.Of(key) != [] {
      assert h.Of(key)[|h.Of(key)| - 1] in h.attempts[key];
    }
  }

  /** Counting an attempt keeps the two limiters together. */
  lemma CountRefines(cfg: Config, l: Limits, h: History, now: Time, key: AssignmentKey)
    requires cfg.Valid() && Refines(cfg, l, h) && Upto(h, now)
    ensures Refines(cfg, l.Count(cfg, now, key), h.Record(cfg, now, key))
    ensures Upto(h.Record(cfg, now, key), now)
  {
    PrunedAnswersAlike(cfg, l, h, now, key);
    RecordUpto(cfg, h, now, key);
    LastIsPast(h, now, key);
    KeptIsPruned(cfg.Horizon(), AttemptsOf(l.recent, key), h.Of(key), now);
    var l', h' := l.Count(cfg, now, key), h.Record(cfg, now, key);
    forall k | k in l'.recent
      ensures Pruned(cfg.Horizon(), l'.recent[k], h'.attempts[k])
    {
      if k != key {
        assert Pruned(cfg.Horizon(), l.recent[k], h.attempts[k]);
      }
    }
  }

  lemma {:induction false} CountAllRefines(cfg: Config, l: Limits, h: History, now: Time, keys: seq<AssignmentKey>)
    requires cfg.Valid() && Refines(cfg, l, h) && Upto(h, now)
    ensures Refines(cfg, l.CountAll(cfg, now, keys), h.RecordAll(cfg, now, keys))
    ensures Upto(h.RecordAll(cfg, now, keys), now)
  {
    if keys != [] {
      var n := |keys| - 1;
      CountAllRefines(cfg, l, h, now, keys[..n]);
      CountRefines(cfg, l.CountAll(cfg, now, keys[..n]), h.RecordAll(cfg, now, keys[..n]), now, keys[n]);
    }
  }
}
