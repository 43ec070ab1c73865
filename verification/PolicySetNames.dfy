// The names under which sets are created: free on the target, and different for
// different sets of a bundle.
module PolicySetNames {
  import opened Objects
  import opened Report
  import opened Conditions
  import opened PolicySets

  // "<name> (imported)", "<name> (imported 2)", ...
  ghost predicate Shaped(name: string) {
    exists base: string, i: nat :: 1 <= i < 100 && name == base + Suffix(i)
  }

  // A bundle as an export produces it, before any import: names are distinct and
  // none has the shape this tool gives to a set it imports beside another.
  ghost predicate Importable(bundle: seq<Set>) {
    && (forall i, j :: 0 <= i < j < |bundle| ==> bundle[i].name != bundle[j].name)
    && (forall i :: 0 <= i < |bundle| ==> !Shaped(bundle[i].name))
  }

  function NamesOf(sets: seq<Held>): set<string> { set h | h in sets :: h.name }

  lemma {:induction false} SetsByNameKeys(sets: seq<Held>)
    ensures SetsByName(sets).Keys == NamesOf(sets)
    ensures forall n :: n in SetsByName(sets) ==> SetsByName(sets)[n] in sets && SetsByName(sets)[n].name == n
  {
    if sets != [] {
      var n := |sets| - 1;
      SetsByNameKeys(sets[..n]);
      assert sets == sets[..n] + [sets[n]];
      assert NamesOf(sets) == NamesOf(sets[..n]) + {sets[n].name};
    }
  }

  // What a free name is: a candidate nobody has, every earlier candidate being
  // held by a stranger's set.
  lemma {:induction false} FreeNameIs(name: string, existing: map<string, Held>, i: nat) returns (k: nat)
    requires 1 <= i <= 100
    ensures i <= k <= 100
    ensures forall j :: i <= j < k ==> name + Suffix(j) in existing && !Mine(existing[name + Suffix(j)])
    ensures if k == 100 then FreeNameFrom(name, existing, i) == ""
            else if name + Suffix(k) in existing then
              Mine(existing[name + Suffix(k)]) && FreeNameFrom(name, existing, i) == ""
            else FreeNameFrom(name, existing, i) == name + Suffix(k)
    decreases 100 - i
  {
    hide Suffix, Mine;
    if i == 100 {
      k := i;
    } else if name + Suffix(i) !in existing || Mine(existing[name + Suffix(i)]) {
      k := i;
    } else {
      k := FreeNameIs(name, existing, i + 1);
    }
  }

  // The same search over a target that only gained sets of this tool's own.
  lemma {:induction false} FreeNameKept(name: string, before: map<string, Held>, after: map<string, Held>, i: nat)
    requires 1 <= i <= 100
    requires forall n :: n in before ==> n in after && Mine(after[n]) == Mine(before[n])
    requires forall n :: n in after && n !in before ==> Mine(after[n])
    requires FreeNameFrom(name, after, i) != ""
    ensures FreeNameFrom(name, before, i) == FreeNameFrom(name, after, i)
    decreases 100 - i
  {
    hide Suffix, Mine;
    if i < 100 && name + Suffix(i) in after && !Mine(after[name + Suffix(i)]) {
      FreeNameKept(name, before, after, i + 1);
    }
  }

  // The eleventh character from the end tells how many digits there are.
  lemma SuffixShape(base: string, i: nat)
    requires 1 <= i < 100
    ensures var s := base + Suffix(i);
            && |s| >= 11 && |Suffix(i)| == (if i == 1 then 11 else if i < 10 then 13 else 14)
            && s[|s| - 11] == if i == 1 then ' ' else if i < 10 then 'i' else 'm'
  {
    var f := Suffix(i);
    assert f[|f| - 11] == if i == 1 then ' ' else if i < 10 then 'i' else 'm';
    assert (base + f)[|base + f| - 11] == f[|f| - 11];
  }

  // Two names give the same candidate only when they are the same name.
  lemma CandidatesDiffer(a: string, b: string, i: nat, j: nat)
    requires 1 <= i < 100 && 1 <= j < 100
    requires a + Suffix(i) == b + Suffix(j)
    ensures a == b
  {
    hide Suffix;
    SuffixShape(a, i);
    SuffixShape(b, j);
    assert |Suffix(i)| == |Suffix(j)|;
    assert a == (a + Suffix(i))[..|a|];
    assert b == (b + Suffix(j))[..|b|];
  }

  // --- entries that create a set ---------------------------------------------------

  predicate Creates(e: Entry) { e.action == Create && e.mergeId == "" && !e.obj.isDefault }

  function Target(e: Entry): string { if e.targetName != "" then e.targetName else e.obj.name }

  lemma CreatedName(sets: seq<Held>, i: nat, s: Set, env: Env)
    requires Creates(Checked(sets, i, s, env))
    ensures var n := Target(Checked(sets, i, s, env));
            && n !in NamesOf(sets) && n != ""
            && Checked(sets, i, s, env).obj == s && s.name != "" && !s.isDefault
            && CheckSet(s, env) == Fine
            && (n == s.name || exists k :: 1 <= k < 100 && n == s.name + Suffix(k))
  {
    hide CheckSet, Suffix;
    var existing := SetsByName(sets);
    SetsByNameKeys(sets);
    if s.name in existing {
      var k := FreeNameIs(s.name, existing, 1);
    }
  }

  lemma TargetsDiffer(sets: seq<Held>, i: nat, s: Set, j: nat, t: Set, env: Env)
    requires Creates(Checked(sets, i, s, env)) && Creates(Checked(sets, j, t, env))
    requires s.name != t.name && !Shaped(s.name) && !Shaped(t.name)
    ensures Target(Checked(sets, i, s, env)) != Target(Checked(sets, j, t, env))
  {
    hide Checked, Suffix;
    CreatedName(sets, i, s, env);
    CreatedName(sets, j, t, env);
    var a, b := Target(Checked(sets, i, s, env)), Target(Checked(sets, j, t, env));
    if a != s.name && b != t.name && a == b {
      var k :| 1 <= k < 100 && a == s.name + Suffix(k);
      var l :| 1 <= l < 100 && b == t.name + Suffix(l);
      CandidatesDiffer(s.name, t.name, k, l);
    }
  }

  // --- the shape of a report --------------------------------------------------------

  ghost predicate EntryOf(sets: seq<Held>, bundle: seq<Set>, env: Env, e: Entry) {
    e.from < |bundle| && e in Entries(sets, e.from, bundle[e.from], env)
  }

  lemma EntriesFrom(sets: seq<Held>, i: nat, s: Set, env: Env)
    ensures forall e :: e in Entries(sets, i, s, env) ==> e.from == i
    ensures forall e :: e in Entries(sets, i, s, env) && Creates(e) ==> e == Checked(sets, i, s, env)
    ensures Checked(sets, i, s, env) in Entries(sets, i, s, env)
    ensures |Entries(sets, i, s, env)| <= 2
    ensures |Entries(sets, i, s, env)| == 2 ==>
              !Creates(Entries(sets, i, s, env)[0]) && !Creates(Entries(sets, i, s, env)[1])
  {
    hide MissingAt, FreeName, CheckSet, KeptSet;
  }

  lemma {:induction false} ReportEntries(sets: seq<Held>, bundle: seq<Set>, env: Env)
    ensures forall e :: e in Preflight(sets, bundle, env) ==> EntryOf(sets, bundle, env, e)
    ensures forall i, e :: 0 <= i < |bundle| && e in Entries(sets, i, bundle[i], env) ==>
              e in Preflight(sets, bundle, env)
  {
    hide Entries;
    if bundle != [] {
      var n := |bundle| - 1;
      ReportEntries(sets, bundle[..n], env);
      EntriesFrom(sets, n, bundle[n], env);
      forall e | e in Preflight(sets, bundle, env)
        ensures EntryOf(sets, bundle, env, e)
      {
        if e in Preflight(sets, bundle[..n], env) {
          assert EntryOf(sets, bundle[..n], env, e);
        }
      }
      forall i, e | 0 <= i < |bundle| && e in Entries(sets, i, bundle[i], env)
        ensures e in Preflight(sets, bundle, env)
      {
        if i < n { assert bundle[..n][i] == bundle[i]; }
      }
    }
  }

  // No two entries of a report create a set under the same name.
  ghost predicate DistinctTargets(report: seq<Entry>) {
    forall i, j :: 0 <= i < j < |report| && Creates(report[i]) && Creates(report[j]) ==>
      Target(report[i]) != Target(report[j])
  }

  lemma {:induction false} ReportTargets(sets: seq<Held>, bundle: seq<Set>, env: Env)
    requires Importable(bundle)
    ensures DistinctTargets(Preflight(sets, bundle, env))
  {
    hide Entries, Shaped, Target, Creates, Checked, SetsByName;
    if bundle != [] {
      var n := |bundle| - 1;
      var rest := Preflight(sets, bundle[..n], env);
      var es := Entries(sets, n, bundle[n], env);
      ReportTargets(sets, bundle[..n], env);
      ReportEntries(sets, bundle[..n], env);
      EntriesFrom(sets, n, bundle[n], env);
      forall i, j | 0 <= i < |rest| && 0 <= j < |es| && Creates(rest[i]) && Creates(es[j])
        ensures Target(rest[i]) != Target(es[j])
      {
        var e := rest[i];
        assert EntryOf(sets, bundle[..n], env, e);
        EntriesFrom(sets, e.from, bundle[e.from], env);
        TargetsDiffer(sets, e.from, bundle[e.from], n, bundle[n], env);
      }
    }
  }
}
