// What pre-flight decides about each set and each rule of a bundle, said of the
// bundle and the target alone.
module PolicySetVerdicts {
  import opened Objects
  import opened Report
  import opened Conditions
  import opened ConditionPaths
  import opened PolicySets
  import opened PolicySetNames
  import opened PolicySetRuns
  import opened PolicySetArrivals
  import opened PolicySetCompletion
  import Marker
  import Picking

  // --- what resolves ------------------------------------------------------------------------

  ghost predicate TreeResolves(c: Option<Json>, env: Env) { c.Some? ==> Resolves(c.value, env) }

  ghost predicate RuleResolves(r: Rule, k: RuleKind, env: Env) {
    && (k == Authentication && r.source != "" ==> r.source in env.stores)
    && (k == Authorization ==>
          && (forall p :: p in r.profiles && p != "" ==> p in env.profiles)
          && (r.group != "" ==> r.group in env.groups))
    && TreeResolves(r.condition, env)
  }

  ghost predicate SetResolves(s: Set, env: Env) {
    && (s.service != "" ==> s.service in env.services)
    && TreeResolves(s.condition, env)
    && (forall r :: r in s.authn ==> RuleResolves(r, Authentication, env))
    && (forall r :: r in s.authz ==> RuleResolves(r, Authorization, env))
  }

  lemma {:induction false} NoneUnknown(names: seq<string>, known: set<string>)
    ensures FirstUnknown(names, known).None? <==> forall p :: p in names && p != "" ==> p in known
  {
    if names != [] {
      NoneUnknown(names[1..], known);
      assert forall p :: p in names <==> p == names[0] || p in names[1..];
    }
  }

  lemma TreeCheckedExactly(c: Option<Json>, env: Env)
    ensures CheckCondition(c, env) == Fine <==> TreeResolves(c, env)
  {
    hide Check, Resolves;
    if c.Some? { CheckExactly(c.value, env); }
  }

  // A rule is accepted if and only if everything it names is there.
  lemma RuleCheckedExactly(r: Rule, k: RuleKind, env: Env)
    ensures CheckRule(r, k, env) == Fine <==> RuleResolves(r, k, env)
  {
    hide CheckCondition, FirstUnknown, TreeResolves;
    NoneUnknown(r.profiles, env.profiles);
    TreeCheckedExactly(r.condition, env);
  }

  // And a set, if and only if everything it and its rules name is.
  lemma SetCheckedExactly(s: Set, env: Env)
    ensures CheckSet(s, env) == Fine <==> SetResolves(s, env)
  {
    hide CheckSet, CheckRule, CheckCondition, TreeResolves, RuleResolves;
    CheckersAgree(s, env);
    TreeCheckedExactly(s.condition, env);
    forall r, k
      ensures CheckRule(r, k, env) == Fine <==> RuleResolves(r, k, env)
    {
      RuleCheckedExactly(r, k, env);
    }
    assert (forall i :: 0 <= i < |s.authn| ==> CheckRule(s.authn[i], Authentication, env) == Fine) <==>
           (forall r :: r in s.authn ==> CheckRule(r, Authentication, env) == Fine);
    assert (forall i :: 0 <= i < |s.authz| ==> CheckRule(s.authz[i], Authorization, env) == Fine) <==>
           (forall r :: r in s.authz ==> CheckRule(r, Authorization, env) == Fine);
  }

  // --- under which name a set goes in ----------------------------------------------------------

  // The number a decimal says.
  function Value(digits: string): nat {
    if digits == "" then 0
    else
      var d := digits[|digits| - 1];
      10 * Value(digits[..|digits| - 1]) + if '0' <= d <= '9' then d as int - '0' as int else 0
  }

  lemma DecimalIs(n: nat)
    requires n < 100
    ensures var d := Decimal(n);
            && Value(d) == n && d != "" && (forall c :: c in d ==> '0' <= c <= '9')
            && (n > 0 ==> d[0] != '0')
  {
    var d := Decimal(n);
    assert Value([]) == 0;
    assert forall m: nat :: m < 10 ==> Digit(m) as int == '0' as int + m;
    if n < 10 {
      assert d[..0] == [];
    } else {
      assert d[..1] == [Digit(n / 10)] && d[..1][..0] == [];
    }
  }

  // " (imported)", then " (imported 2)", " (imported 3)" and so on.
  lemma SuffixIs(i: nat)
    requires 1 <= i < 100
    ensures i == 1 ==> Suffix(i) == " (imported)"
    ensures i > 1 ==> exists d :: Suffix(i) == " (imported " + d + ")" && Value(d) == i && d[..1] != "0"
  {
    DecimalIs(i);
    if i > 1 {
      var d := Decimal(i);
      assert Suffix(i) == " (imported " + d + ")";
    }
  }

  predicate MarkAt(text: string, i: nat) { i + 9 <= |text| && text[i..i + 9] == "[ise2ise " }

  ghost predicate IsMine(h: Held) { exists i: nat :: MarkAt(h.description, i) }

  lemma MarkAtIs(text: string, i: nat)
    ensures MarkAt(text, i) <==> i <= |text| && Marker.OccursAt(text, Marker.PREFIX, i)
  {
    if MarkAt(text, i) {
      var part := text[i..i + 9];
      assert forall k :: 0 <= k < 9 ==> part[k] == text[i + k];
    }
    if i <= |text| && Marker.OccursAt(text, Marker.PREFIX, i) {
      assert text[i..i + 9] == Marker.PREFIX;
    }
  }

  lemma MineIs(h: Held)
    ensures Mine(h) <==> IsMine(h)
  {
    hide MarkAt, Marker.OccursAt;
    forall i: nat
      ensures MarkAt(h.description, i) <==> i <= |h.description| && Marker.OccursAt(h.description, Marker.PREFIX, i)
    {
      MarkAtIs(h.description, i);
    }
  }

  ghost predicate Stranger(sets: seq<Held>, name: string) {
    exists h :: h in sets && h.name == name && !IsMine(h)
  }

  // The set's own name when no set has it; beside a stranger's, the first candidate
  // nobody has, when every one before it is a stranger's too.
  ghost predicate GoesUnder(sets: seq<Held>, s: Set, name: string) {
    if s.name !in NamesOf(sets) then name == s.name
    else
      && Stranger(sets, s.name)
      && exists k: nat :: 1 <= k < 100 && name == s.name + Suffix(k) && name !in NamesOf(sets)
           && forall j: nat :: 1 <= j < k ==> Stranger(sets, s.name + Suffix(j))
  }

  lemma HolderIs(sets: seq<Held>, name: string)
    requires UniqueNames(sets)
    ensures name in SetsByName(sets) <==> name in NamesOf(sets)
    ensures name in SetsByName(sets) ==> (Mine(SetsByName(sets)[name]) <==> !Stranger(sets, name))
  {
    hide Mine, IsMine, SetsByName;
    SetsByNameKeys(sets);
    if name in SetsByName(sets) {
      MineIs(SetsByName(sets)[name]);
      forall h | h in sets && h.name == name
        ensures h == SetsByName(sets)[name]
      {
      }
    }
  }

  lemma HoldersAre(sets: seq<Held>)
    requires UniqueNames(sets)
    ensures forall name :: name in SetsByName(sets) <==> name in NamesOf(sets)
    ensures forall name :: name in SetsByName(sets) ==> (Mine(SetsByName(sets)[name]) <==> !Stranger(sets, name))
  {
    hide *;
    forall name
      ensures name in SetsByName(sets) <==> name in NamesOf(sets)
      ensures name in SetsByName(sets) ==> (Mine(SetsByName(sets)[name]) <==> !Stranger(sets, name))
    {
      HolderIs(sets, name);
    }
  }

  // The name found is the one described, and there is no other.
  lemma FreeNameExactly(sets: seq<Held>, s: Set, name: string)
    requires UniqueNames(sets) && s.name in NamesOf(sets) && Stranger(sets, s.name)
    ensures GoesUnder(sets, s, name) <==> name != "" && name == FreeName(s.name, SetsByName(sets))
  {
    hide Mine, SetsByName, Suffix, FreeNameFrom, Stranger, UniqueNames, NamesOf;
    HoldersAre(sets);
    var existing := SetsByName(sets);
    var m := FreeNameIs(s.name, existing, 1);
    if GoesUnder(sets, s, name) {
      var k: nat :| 1 <= k < 100 && name == s.name + Suffix(k) && name !in NamesOf(sets)
                    && forall j: nat :: 1 <= j < k ==> Stranger(sets, s.name + Suffix(j));
      StrangersHold(sets);
      assert k <= m;
      assert m <= k;
    }
    SuffixNonempty(s.name);
  }

  lemma StrangersHold(sets: seq<Held>)
    requires UniqueNames(sets)
    ensures forall n :: Stranger(sets, n) ==> n in SetsByName(sets) && !Mine(SetsByName(sets)[n])
  {
    hide *;
    HoldersAre(sets);
    forall n | Stranger(sets, n)
      ensures n in SetsByName(sets)
    {
      StrangerIsNamed(sets, n);
    }
  }

  lemma StrangerIsNamed(sets: seq<Held>, n: string)
    requires Stranger(sets, n)
    ensures n in NamesOf(sets)
  {
  }

  lemma SuffixNonempty(name: string)
    ensures forall k: nat :: 1 <= k < 100 ==> name + Suffix(k) != ""
  {
  }

  // Pre-flight clears a set for creation if and only if it has a name, is not the
  // Default set, resolves whole, and there is a name to give it; that is the name it
  // is created under.
  lemma CreatedExactly(sets: seq<Held>, i: nat, s: Set, env: Env, name: string)
    requires UniqueNames(sets)
    ensures (exists e :: e in Entries(sets, i, s, env) && Creates(e)
                         && Target(e) == name && e.from == i && e.obj == s) <==>
            s.name != "" && !s.isDefault && SetResolves(s, env) && GoesUnder(sets, s, name)
  {
    hide Mine, SetsByName, CheckSet, KeptSet, SetResolves, GoesUnder, MissingAt, FreeName, Stranger, UniqueNames,
         NamesOf;
    HoldersAre(sets);
    SetCheckedExactly(s, env);
    var c := Checked(sets, i, s, env);
    EntriesFrom(sets, i, s, env);
    CheckedCreates(sets, i, s, env, name);
    if Creates(c) && Target(c) == name {
      CreatedName(sets, i, s, env);
      assert c in Entries(sets, i, s, env) && c.from == i && c.obj == s;
    }
  }

  lemma CheckedCreates(sets: seq<Held>, i: nat, s: Set, env: Env, name: string)
    requires UniqueNames(sets)
    ensures var c := Checked(sets, i, s, env);
            Creates(c) && Target(c) == name <==>
            s.name != "" && !s.isDefault && CheckSet(s, env) == Fine && GoesUnder(sets, s, name)
  {
    hide Mine, SetsByName, CheckSet, KeptSet, GoesUnder, FreeName, Stranger, UniqueNames, NamesOf;
    HolderIs(sets, s.name);
    if s.name !in NamesOf(sets) {
      OwnNameIs(sets, s, name);
    } else if Stranger(sets, s.name) {
      FreeNameExactly(sets, s, name);
    } else {
      NoNameIs(sets, s, name);
    }
  }

  lemma OwnNameIs(sets: seq<Held>, s: Set, name: string)
    requires s.name !in NamesOf(sets)
    ensures GoesUnder(sets, s, name) <==> name == s.name
  {
  }

  lemma NoNameIs(sets: seq<Held>, s: Set, name: string)
    requires s.name in NamesOf(sets) && !Stranger(sets, s.name)
    ensures !GoesUnder(sets, s, name)
  {
  }

  // A set is blocked if and only if it has no name, or is not the Default set and
  // does not resolve whole.
  lemma BlockedExactly(sets: seq<Held>, i: nat, s: Set, env: Env)
    ensures (exists e :: e in Entries(sets, i, s, env) && e.action == Blocked) <==>
            s.name == "" || (!s.isDefault && !SetResolves(s, env))
  {
    hide Mine, SetsByName, CheckSet, KeptSet, SetResolves, MissingAt, FreeName;
    SetCheckedExactly(s, env);
    assert Checked(sets, i, s, env) in Entries(sets, i, s, env);
  }

  // --- rules left out of the Default set, and rules an import lacks -----------------------------

  ghost function Resolving(k: RuleKind, env: Env): Rule -> bool { (r: Rule) => RuleResolves(r, k, env) }

  ghost function Lacking(k: RuleKind, have: set<string>, env: Env): Rule -> bool {
    (r: Rule) => !r.isDefault && r.name !in have && RuleResolves(r, k, env)
  }

  function Itself(): Rule -> Rule { (r: Rule) => r }
  function Naming(): Rule -> string { (r: Rule) => r.name }

  // Of the Default set exactly the rules that resolve are merged, in the bundle's
  // order.
  lemma {:induction false} KeptExactly(rs: seq<Rule>, k: RuleKind, env: Env) returns (at: seq<nat>)
    ensures Picking.Picked(at, rs, PolicySets.Kept(rs, k, env), Resolving(k, env), Itself())
  {
    hide CheckRule, RuleResolves, Picking.Picked;
    if rs == [] {
      Picking.NothingPicked(Resolving(k, env), Itself());
      at := [];
    } else {
      RuleCheckedExactly(rs[0], k, env);
      at := KeptExactly(rs[1..], k, env);
      at := Picking.FirstPicked(at, rs, PolicySets.Kept(rs[1..], k, env), Resolving(k, env), Itself());
    }
  }

  // Reported as missing are exactly the names of the rules that are no default, are
  // not there and resolve, in the bundle's order.
  lemma {:induction false} MissingExactly(rs: seq<Rule>, k: RuleKind, have: set<string>, env: Env)
    returns (at: seq<nat>)
    ensures Picking.Picked(at, rs, Missing(rs, k, have, env), Lacking(k, have, env), Naming())
  {
    hide CheckRule, RuleResolves, Picking.Picked;
    if rs == [] {
      Picking.NothingPicked(Lacking(k, have, env), Naming());
      at := [];
    } else {
      RuleCheckedExactly(rs[0], k, env);
      at := MissingExactly(rs[1..], k, have, env);
      at := Picking.FirstPicked(at, rs, Missing(rs[1..], k, have, env), Lacking(k, have, env), Naming());
    }
  }

  // --- the order of the report ---------------------------------------------------------------------

  ghost predicate Reported(report: seq<Entry>, i: nat) { exists x :: 0 <= x < |report| && report[x].from == i }

  // The first n sets are reported in their order, every one of them.
  ghost predicate InOrder(report: seq<Entry>, n: nat) {
    && (forall x :: 0 <= x < |report| ==> report[x].from < n)
    && (forall x, y :: 0 <= x < y < |report| ==> report[x].from <= report[y].from)
    && (forall i: nat :: i < n ==> Reported(report, i))
  }

  lemma MoreInOrder(before: seq<Entry>, es: seq<Entry>, n: nat)
    requires InOrder(before, n) && es != [] && forall e :: e in es ==> e.from == n
    ensures InOrder(before + es, n + 1)
  {
    var report := before + es;
    assert forall x :: 0 <= x < |es| ==> es[x] in es;
    forall i: nat | i < n + 1
      ensures Reported(report, i)
    {
      if i < n {
        assert Reported(before, i);
        var x :| 0 <= x < |before| && before[x].from == i;
        assert report[x] == before[x];
      } else {
        assert report[|before|] == es[0];
      }
    }
  }

  // The bundle's sets are reported in the bundle's order, every one of them.
  lemma {:induction false} ReportsInOrder(sets: seq<Held>, bundle: seq<Set>, env: Env)
    ensures InOrder(Preflight(sets, bundle, env), |bundle|)
  {
    hide Entries;
    if bundle != [] {
      hide InOrder;
      var n := |bundle| - 1;
      ReportsInOrder(sets, bundle[..n], env);
      EntriesFrom(sets, n, bundle[n], env);
      MoreInOrder(Preflight(sets, bundle[..n], env), Entries(sets, n, bundle[n], env), n);
    }
  }
}
