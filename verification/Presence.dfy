/** Bookkeeping of attached interfaces, from which attach edges are told. */
module Attachments {
  import opened Options

  datatype VIDPID = VIDPID(vid: nat, pid: nat)

  /** What a device event carries; a disconnect may miss the target. */
  datatype DeviceInfo = DeviceInfo(path: string, target: VIDPID)

  ghost function PathsOf(paths: map<string, VIDPID>, t: VIDPID): set<string> {
    set path | path in paths && paths[path] == t
  }

  class Presence {
    var paths: map<string, VIDPID>
    var count: map<VIDPID, int>

    /** Each target's count is the number of its paths, absent when there is none. */
    ghost predicate Valid()
      reads this
    {
      forall t :: (t in count <==> PathsOf(paths, t) != {}) && (t in count ==> count[t] == |PathsOf(paths, t)|)
    }

    constructor ()
      ensures Valid() && paths == map[]
    {
      paths, count := map[], map[];
    }

    /** True on an attach edge. */
    method Add(info: Option<DeviceInfo>) returns (edge: bool)
      requires Valid()
      modifies this
      ensures Valid()
      ensures paths == Applied(old(paths), Attached(info))
      ensures edge <==> IsEdge(old(paths), info)
    {
      if info.None? {
        return false;
      }
      var path, t := info.value.path, info.value.target;
      if path in paths {
        return false;
      }
      ghost var was := paths;
      paths := paths[path := t];
      count := count[t := (if t in count then count[t] else 0) + 1];
      forall t'
        ensures PathsOf(paths, t') == if t' == t then PathsOf(was, t) + {path} else PathsOf(was, t')
      {
      }
      return count[t] == 1;
    }

    method Remove(info: Option<DeviceInfo>)
      requires Valid()
      modifies this
      ensures Valid()
      ensures paths == Applied(old(paths), Detached(info))
    {
      if info.None? {
        return;
      }
      var path := info.value.path;
      if path !in paths {
        assert paths - {path} == paths;
        return;
      }
      ghost var was := paths;
      var t := paths[path];
      assert path in PathsOf(was, t);
      paths := paths - {path};
      count := count[t := count[t] - 1];
      forall t'
        ensures PathsOf(paths, t') == if t' == t then PathsOf(was, t) - {path} else PathsOf(was, t')
      {
      }
      if count[t] <= 0 {
        count := count - {t};
      }
    }
  }

  // The paths over any sequence of events.

  datatype Event = Attached(info: Option<DeviceInfo>) | Detached(info: Option<DeviceInfo>)

  function Applied(paths: map<string, VIDPID>, e: Event): map<string, VIDPID> {
    match e
    case Attached(Some(info)) => if info.path in paths then paths else paths[info.path := info.target]
    case Detached(Some(info)) => paths - {info.path}
    case _ => paths
  }

  /** The attach is of a new path of a target that had none. */
  ghost predicate IsEdge(paths: map<string, VIDPID>, info: Option<DeviceInfo>) {
    info.Some? && info.value.path !in paths && PathsOf(paths, info.value.target) == {}
  }

  function Tracked(events: seq<Event>): map<string, VIDPID> {
    if events == [] then map[] else Applied(Tracked(events[..|events| - 1]), events[|events| - 1])
  }

  ghost predicate NamesAt(events: seq<Event>, i: nat, path: string) {
    i < |events| && events[i].info.Some? && events[i].info.value.path == path
  }

  ghost predicate AttachAt(events: seq<Event>, i: nat, path: string) {
    NamesAt(events, i, path) && events[i].Attached?
  }

  ghost predicate DetachAt(events: seq<Event>, i: nat, path: string) {
    NamesAt(events, i, path) && events[i].Detached?
  }

  /** A detach between the two: after i, before end. */
  ghost predicate DetachedBetween(events: seq<Event>, i: nat, end: nat, path: string) {
    exists k: nat :: i < k < end && DetachAt(events, k, path)
  }

  /** Every attach of the path was undone since. */
  ghost predicate AllUndone(events: seq<Event>, path: string) {
    forall j: nat | AttachAt(events, j, path) :: DetachedBetween(events, j, |events|, path)
  }

  lemma DetachedFront(events: seq<Event>, i: nat, end: nat, path: string)
    requires events != [] && end < |events|
    ensures DetachedBetween(events[..|events| - 1], i, end, path) <==> DetachedBetween(events, i, end, path)
  {
    var front := events[..|events| - 1];
    assert forall k: nat | k < end :: DetachAt(front, k, path) <==> DetachAt(events, k, path);
  }

  lemma DetachedLast(events: seq<Event>, i: nat, path: string)
    requires events != [] && i < |events| - 1
    ensures var n := |events| - 1;
            DetachedBetween(events, i, |events|, path) <==>
              DetachedBetween(events, i, n, path) || DetachAt(events, n, path)
  {
  }

  /** A path is not tracked exactly when every attach of it was undone. */
  lemma {:induction false} UntrackedIsUndone(events: seq<Event>, path: string)
    ensures path !in Tracked(events) <==> AllUndone(events, path)
  {
    if events != [] {
      var n := |events| - 1;
      var front := events[..n];
      UntrackedIsUndone(front, path);
      forall j: nat | j < n
        ensures AttachAt(events, j, path) <==> AttachAt(front, j, path)
        ensures DetachedBetween(events, j, |events|, path) <==>
                  DetachedBetween(front, j, n, path) || DetachAt(events, n, path)
      {
        DetachedFront(events, j, n, path);
        DetachedLast(events, j, path);
      }
      assert !DetachedBetween(events, n, |events|, path);
    }
  }

  /** Event i attached the path as t: every attach before was undone, and nothing undid it since. */
  ghost predicate StandsSince(events: seq<Event>, i: nat, path: string, t: VIDPID) {
    && i < |events| && events[i] == Attached(Some(DeviceInfo(path, t)))
    && AllUndone(events[..i], path)
    && !DetachedBetween(events, i, |events|, path)
  }

  lemma StandsFront(events: seq<Event>, i: nat, path: string, t: VIDPID)
    requires events != [] && i < |events| - 1
    ensures StandsSince(events, i, path, t) <==>
              StandsSince(events[..|events| - 1], i, path, t) && !DetachAt(events, |events| - 1, path)
  {
    DetachedFront(events, i, |events| - 1, path);
    DetachedLast(events, i, path);
    assert events[..|events| - 1][..i] == events[..i];
  }

  /** A path is tracked as t exactly when an attach of it as t still stands. */
  lemma {:induction false} TrackedStands(events: seq<Event>, path: string, t: VIDPID)
    ensures path in Tracked(events) && Tracked(events)[path] == t <==> exists i: nat :: StandsSince(events, i, path, t)
  {
    if events != [] {
      var n := |events| - 1;
      var front := events[..n];
      TrackedStands(front, path, t);
      UntrackedIsUndone(front, path);
      forall i: nat | i < n
        ensures StandsSince(events, i, path, t) <==> StandsSince(front, i, path, t) && !DetachAt(events, n, path)
      {
        StandsFront(events, i, path, t);
      }
      assert StandsSince(events, n, path, t) <==>
               events[n] == Attached(Some(DeviceInfo(path, t))) && path !in Tracked(front);
      if path in Tracked(events) && Tracked(events)[path] == t {
        if path in Tracked(front) {
          var i: nat :| StandsSince(front, i, path, t);
          assert StandsSince(events, i, path, t);
        } else {
          assert StandsSince(events, n, path, t);
        }
      }
    }
  }

  /** An attach is an edge exactly when its path is not tracked and no path attached as its target
      still stands, whatever the other events. */
  lemma EdgeIsFromAbsent(events: seq<Event>, info: DeviceInfo)
    ensures IsEdge(Tracked(events), Some(info)) <==>
              && AllUndone(events, info.path)
              && forall path, i: nat :: !StandsSince(events, i, path, info.target)
  {
    UntrackedIsUndone(events, info.path);
    forall path
      ensures path in PathsOf(Tracked(events), info.target) <==>
                exists i: nat :: StandsSince(events, i, path, info.target)
    {
      TrackedStands(events, path, info.target);
    }
    var attached := PathsOf(Tracked(events), info.target);
    if attached != {} {
      var path :| path in attached;
      var i: nat :| StandsSince(events, i, path, info.target);
    } else {
      forall path, i: nat
        ensures !StandsSince(events, i, path, info.target)
      {
        assert path !in attached;
      }
    }
  }
}
