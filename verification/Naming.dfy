/** Numbering devices that would otherwise share a name. */
module Naming {

  const DIGITS := "0123456789"

  function Itoa(n: nat): string {
    if n < 10 then [DIGITS[n]] else Itoa(n / 10) + [DIGITS[n % 10]]
  }

  lemma {:induction false} ItoaIsInjective(a: nat, b: nat)
    requires Itoa(a) == Itoa(b)
    ensures a == b
  {
    var s, t := Itoa(a), Itoa(b);
    assert s[|s| - 1] == DIGITS[a % 10] && t[|t| - 1] == DIGITS[b % 10];
    ItoaIsLonger(a);
    ItoaIsLonger(b);
    if a >= 10 {
      assert s[..|s| - 1] == Itoa(a / 10) && t[..|t| - 1] == Itoa(b / 10);
      ItoaIsInjective(a / 10, b / 10);
    }
  }

  lemma ItoaIsLonger(n: nat)
    ensures n >= 10 <==> |Itoa(n)| > 1
  {
  }

  /** The number a decimal numeral reads as. */
  function Numeral(s: string): int {
    if s == "" then 0 else 10 * Numeral(s[..|s| - 1]) + (s[|s| - 1] as int - '0' as int)
  }

  lemma {:induction false} ItoaReads(n: nat)
    ensures forall c | c in Itoa(n) :: '0' <= c <= '9'
    ensures Numeral(Itoa(n)) == n
    ensures |Itoa(n)| >= 1 && (n > 0 ==> Itoa(n)[0] != '0')
  {
    if n >= 10 {
      ItoaReads(n / 10);
      assert Itoa(n)[..|Itoa(n)| - 1] == Itoa(n / 10);
    } else {
      assert Itoa(n)[..0] == "";
    }
  }

  /** The names tried for a device, in order: its base, then base-2, base-3, and so on. */
  function Candidate(base: string, k: nat): string {
    if k == 0 then base else base + "-" + Itoa(k + 1)
  }

  /** After its base the names tried are the base, a dash and 2, 3, and so on, in plain decimal. */
  lemma CandidateReads(base: string, k: nat)
    requires k > 0
    ensures var suffix := Itoa(k + 1);
            && Candidate(base, k) == base + ['-'] + suffix && suffix[0] != '0'
            && (forall c | c in suffix :: '0' <= c <= '9') && Numeral(suffix) == k + 1
  {
    ItoaReads(k + 1);
  }

  lemma CandidatesDiffer(base: string, j: nat, k: nat)
    requires Candidate(base, j) == Candidate(base, k)
    ensures j == k
  {
    if j > 0 && k > 0 {
      var s, t := Candidate(base, j), Candidate(base, k);
      assert s[|base| + 1..] == Itoa(j + 1) && t[|base| + 1..] == Itoa(k + 1);
      ItoaIsInjective(j + 1, k + 1);
    }
  }

  /** The first k names tried. */
  function Candidates(base: string, k: nat): set<string> {
    if k == 0 then {} else Candidates(base, k - 1) + {Candidate(base, k - 1)}
  }

  lemma {:induction false} NotTriedBefore(base: string, k: nat, n: nat)
    requires k <= n
    ensures Candidate(base, n) !in Candidates(base, k)
  {
    if k > 0 {
      NotTriedBefore(base, k - 1, n);
      if Candidate(base, n) == Candidate(base, k - 1) {
        CandidatesDiffer(base, n, k - 1);
      }
    }
  }

  lemma {:induction false} CandidatesCount(base: string, k: nat)
    ensures |Candidates(base, k)| == k
  {
    if k > 0 {
      CandidatesCount(base, k - 1);
      NotTriedBefore(base, k - 1, k - 1);
    }
  }

  lemma {:induction false} CandidatesIn(base: string, k: nat, used: set<string>)
    requires forall j: nat | j < k :: Candidate(base, j) in used
    ensures Candidates(base, k) <= used
  {
    if k > 0 {
      CandidatesIn(base, k - 1, used);
    }
  }

  lemma {:induction false} SubsetIsSmaller<T>(a: set<T>, b: set<T>)
    requires a <= b
    ensures |a| <= |b|
  {
    assert b == a + (b - a);
  }

  /** With k candidates taken, at least k names are: a free one is found in time. */
  lemma TakenCandidates(base: string, k: nat, used: set<string>)
    requires forall j | 0 <= j < k :: Candidate(base, j) in used
    ensures k <= |used|
  {
    CandidatesCount(base, k);
    CandidatesIn(base, k, used);
    SubsetIsSmaller(Candidates(base, k), used);
  }

  ghost predicate FirstFreeAt(base: string, taken: seq<string>, name: string, k: nat) {
    name == Candidate(base, k) && name !in taken && forall j: nat | j < k :: Candidate(base, j) in taken
  }

  /** name is the first candidate of base not taken. */
  ghost predicate FirstFree(base: string, taken: seq<string>, name: string) {
    exists k: nat :: FirstFreeAt(base, taken, name, k)
  }

  /** Each device has the first candidate of its base that no device before it has. */
  ghost predicate Numbered(bases: seq<string>, names: seq<string>) {
    |names| == |bases| && forall i | 0 <= i < |names| :: FirstFree(bases[i], names[..i], names[i])
  }

  /** So the names are pairwise distinct, whatever the bases. */
  lemma NumberedApart(bases: seq<string>, names: seq<string>)
    requires Numbered(bases, names)
    ensures forall i, j | 0 <= i < j < |names| :: names[i] != names[j]
  {
    forall i, j | 0 <= i < j < |names|
      ensures names[i] != names[j]
    {
      assert FirstFree(bases[j], names[..j], names[j]);
      assert names[i] == names[..j][i];
    }
  }

  lemma FirstFreeIsOne(base: string, taken: seq<string>, a: string, b: string)
    requires FirstFree(base, taken, a) && FirstFree(base, taken, b)
    ensures a == b
  {
    var j: nat :| FirstFreeAt(base, taken, a, j);
    var k: nat :| FirstFreeAt(base, taken, b, k);
    assert j == k;
  }

  lemma NumberedNext(bases: seq<string>, names: seq<string>, base: string, name: string)
    requires Numbered(bases, names) && FirstFree(base, names, name)
    ensures Numbered(bases + [base], names + [name])
  {
    var all := names + [name];
    forall i | 0 <= i < |all|
      ensures FirstFree((bases + [base])[i], all[..i], all[i])
    {
      assert all[..i] == names[..i];
      if i < |names| {
        assert FirstFree(bases[i], names[..i], names[i]);
      } else {
        assert names[..i] == names;
      }
    }
  }

  lemma NextIsOne(bases: seq<string>, a: seq<string>, b: seq<string>, i: nat)
    requires Numbered(bases, a) && Numbered(bases, b) && i < |bases|
    requires forall j | 0 <= j < i :: a[j] == b[j]
    ensures a[i] == b[i]
  {
    assert a[..i] == b[..i];
    FirstFreeIsOne(bases[i], a[..i], a[i], b[i]);
  }

  lemma {:induction false} PrefixIsOne(bases: seq<string>, a: seq<string>, b: seq<string>, n: nat)
    requires Numbered(bases, a) && Numbered(bases, b) && n <= |bases|
    ensures forall i | 0 <= i < n :: a[i] == b[i]
  {
    if n > 0 {
      PrefixIsOne(bases, a, b, n - 1);
      NextIsOne(bases, a, b, n - 1);
    }
  }

  /** And they are determined by the bases, in order. */
  lemma NumberedIsOne(bases: seq<string>, a: seq<string>, b: seq<string>)
    requires Numbered(bases, a) && Numbered(bases, b)
    ensures a == b
  {
    PrefixIsOne(bases, a, b, |bases|);
  }

  datatype HIDDecl = HIDDecl(name: string, channel: nat, easySwitch: bool, watched: bool, twin: bool)

  function NamesOf(decls: seq<HIDDecl>): seq<string> {
    seq(|decls|, i requires 0 <= i < |decls| => decls[i].name)
  }

  /** Two devices share the base, and one of those sharing it is an Easy-Switch one. */
  ghost predicate IsTwin(decls: seq<HIDDecl>, i: nat)
    requires i < |decls|
  {
    && (exists j :: 0 <= j < |decls| && j != i && decls[j].name == decls[i].name)
    && (exists j :: 0 <= j < |decls| && decls[j].name == decls[i].name && decls[j].easySwitch)
  }

  /** models holds, for each base, the devices of that base in order. */
  ghost predicate GroupsBases(models: map<string, seq<nat>>, bases: seq<string>) {
    && (forall b | b in models :: forall k | 0 <= k < |models[b]| :: models[b][k] < |bases| && bases[models[b][k]] == b)
    && (forall b | b in models :: forall k, l | 0 <= k < l < |models[b]| :: models[b][k] < models[b][l])
    && (forall i | 0 <= i < |bases| :: bases[i] in models && i in models[bases[i]])
  }

  lemma GroupsNext(models: map<string, seq<nat>>, bases: seq<string>, base: string)
    requires GroupsBases(models, bases)
    ensures GroupsBases(models[base := (if base in models then models[base] else []) + [|bases|]], bases + [base])
  {
  }

  /** Tries the candidates of device i until one is free. */
  method NumberName(decls: array<HIDDecl>, i: nat, used: set<string>, ghost names: seq<string>)
    requires i < decls.Length
    requires forall name :: name in used <==> name in names
    modifies decls
    ensures forall j | 0 <= j < decls.Length && j != i :: decls[j] == old(decls[j])
    ensures decls[i] == old(decls[i]).(name := decls[i].name)
    ensures FirstFree(old(decls[i]).name, names, decls[i].name)
  {
    var base := decls[i].name;
    var n := 2;
    while decls[i].name in used
      invariant n >= 2 && decls[i] == old(decls[i]).(name := Candidate(base, n - 2))
      invariant forall j: nat | j < n - 2 :: Candidate(base, j) in used
      invariant forall j | 0 <= j < decls.Length && j != i :: decls[j] == old(decls[j])
      decreases |used| + 2 - n
    {
      TakenCandidates(base, n - 1, used);
      decls[i] := decls[i].(name := base + "-" + Itoa(n));
      n := n + 1;
    }
    assert FirstFreeAt(base, names, decls[i].name, n - 2);
  }

  /** Numbers the devices in place. */
  method NumberNames(decls: array<HIDDecl>) returns (models: map<string, seq<nat>>)
    modifies decls
    ensures Numbered(NamesOf(old(decls[..])), NamesOf(decls[..]))
    ensures forall i | 0 <= i < decls.Length :: decls[i] == old(decls[i]).(name := decls[i].name)
    ensures GroupsBases(models, NamesOf(old(decls[..])))
  {
    ghost var bases := NamesOf(decls[..]);
    models := map[];
    var used: set<string> := {};
    for i := 0 to decls.Length
      invariant forall j | i <= j < decls.Length :: decls[j] == old(decls[j])
      invariant forall j | 0 <= j < i :: decls[j] == old(decls[j]).(name := decls[j].name)
      invariant Numbered(bases[..i], NamesOf(decls[..i]))
      invariant forall name :: name in used <==> name in NamesOf(decls[..i])
      invariant GroupsBases(models, bases[..i])
    {
      ghost var names := NamesOf(decls[..i]);
      var base := decls[i].name;
      GroupsNext(models, bases[..i], base);
      models := models[base := (if base in models then models[base] else []) + [i]];
      NumberName(decls, i, used, names);
      NumberedNext(bases[..i], names, base, decls[i].name);
      assert bases[..i + 1] == bases[..i] + [base];
      assert NamesOf(decls[..i + 1]) == names + [decls[i].name];
      used := used + {decls[i].name};
    }
    assert decls[..decls.Length] == decls[..] && bases[..decls.Length] == bases;
  }

  /** group lists the devices of that base, in order. */
  ghost predicate IsGroup(group: seq<nat>, base: string, bases: seq<HIDDecl>) {
    && (forall k | 0 <= k < |group| :: group[k] < |bases| && bases[group[k]].name == base)
    && (forall k, l | 0 <= k < l < |group| :: group[k] < group[l])
    && (forall i | 0 <= i < |bases| && bases[i].name == base :: i in group)
  }

  lemma GroupIsTwin(group: seq<nat>, base: string, bases: seq<HIDDecl>, i: nat)
    requires IsGroup(group, base, bases) && i < |bases| && bases[i].name == base
    ensures IsTwin(bases, i) <==> |group| > 1 && exists k :: 0 <= k < |group| && bases[group[k]].easySwitch
  {
    var at :| 0 <= at < |group| && group[at] == i;
    if |group| > 1 {
      var other := group[if at == 0 then 1 else 0];
      assert other != i && bases[other].name == base;
    }
    if IsTwin(bases, i) {
      var j :| 0 <= j < |bases| && j != i && bases[j].name == base;
      assert j in group && i in group;
      var e :| 0 <= e < |bases| && bases[e].name == base && bases[e].easySwitch;
      assert e in group;
    }
  }

  method Mark(decls: array<HIDDecl>, group: seq<nat>)
    requires forall k | 0 <= k < |group| :: group[k] < decls.Length
    modifies decls
    ensures forall i | 0 <= i < decls.Length ::
              decls[i] == old(decls[i]).(twin := old(decls[i]).twin || i in group)
  {
    for k := 0 to |group|
      invariant forall i | 0 <= i < decls.Length ::
                  decls[i] == old(decls[i]).(twin := old(decls[i]).twin || i in group[..k])
    {
      decls[group[k]] := decls[group[k]].(twin := true);
      assert group[..k + 1] == group[..k] + [group[k]];
    }
    assert group[..|group|] == group;
  }

  ghost predicate TellsApart(group: seq<nat>, bases: seq<HIDDecl>)
    requires forall k | 0 <= k < |group| :: group[k] < |bases|
  {
    |group| > 1 && exists k :: 0 <= k < |group| && bases[group[k]].easySwitch
  }

  lemma GroupTwins(group: seq<nat>, base: string, bases: seq<HIDDecl>)
    requires IsGroup(group, base, bases)
    ensures forall i: nat | i < |bases| :: i in group <==> bases[i].name == base
    ensures forall i: nat | i < |bases| && i in group :: IsTwin(bases, i) <==> TellsApart(group, bases)
  {
    forall i: nat | i < |bases| && i in group
      ensures IsTwin(bases, i) <==> TellsApart(group, bases)
    {
      GroupIsTwin(group, base, bases, i);
    }
  }

  /** Marks one group, if the user has to tell its devices apart. */
  method MarkGroup(decls: array<HIDDecl>, group: seq<nat>, ghost bases: seq<HIDDecl>)
    requires |bases| == decls.Length && forall k | 0 <= k < |group| :: group[k] < |bases|
    requires forall i | 0 <= i < decls.Length :: decls[i].easySwitch == bases[i].easySwitch
    modifies decls
    ensures forall i | 0 <= i < decls.Length ::
              decls[i] == old(decls[i]).(twin := old(decls[i]).twin || (i in group && TellsApart(group, bases)))
  {
    var easySwitch := exists k :: 0 <= k < |group| && decls[group[k]].easySwitch;
    assert easySwitch <==> exists k :: 0 <= k < |group| && bases[group[k]].easySwitch;
    if |group| > 1 && easySwitch {
      Mark(decls, group);
    }
  }

  lemma GroupsAre(models: map<string, seq<nat>>, bases: seq<HIDDecl>)
    requires GroupsBases(models, NamesOf(bases))
    ensures forall b | b in models :: IsGroup(models[b], b, bases)
    ensures forall i | 0 <= i < |bases| :: bases[i].name in models
  {
    forall i | 0 <= i < |bases|
      ensures bases[i].name in models && i in models[bases[i].name]
    {
      assert NamesOf(bases)[i] == bases[i].name;
    }
    forall b | b in models
      ensures IsGroup(models[b], b, bases)
    {
      forall k | 0 <= k < |models[b]|
        ensures models[b][k] < |bases| && bases[models[b][k]].name == b
      {
        assert NamesOf(bases)[models[b][k]] == b;
      }
    }
  }

  /** Marks, model by model, the devices the user has to tell apart. */
  method MarkTwins(decls: array<HIDDecl>, models: map<string, seq<nat>>, ghost bases: seq<HIDDecl>)
    requires |bases| == decls.Length && GroupsBases(models, NamesOf(bases))
    requires forall i | 0 <= i < decls.Length :: decls[i].easySwitch == bases[i].easySwitch && !decls[i].twin
    modifies decls
    ensures forall i | 0 <= i < decls.Length :: decls[i] == old(decls[i]).(twin := IsTwin(bases, i))
  {
    GroupsAre(models, bases);
    var left := models.Keys;
    while left != {}
      invariant left <= models.Keys
      invariant forall i | 0 <= i < decls.Length ::
                  decls[i] == old(decls[i]).(twin := bases[i].name !in left && IsTwin(bases, i))
      decreases left
    {
      var base :| base in left;
      GroupTwins(models[base], base, bases);
      MarkGroup(decls, models[base], bases);
      left := left - {base};
    }
  }
}
