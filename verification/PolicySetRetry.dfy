// A second run over the target the first one left behind: it sends only what the
// first had sent and did not get in.
module PolicySetRetry {
  import opened Objects
  import opened Report
  import opened Conditions
  import opened PolicySets
  import opened PolicySetNames
  import opened PolicySetRuns
  import opened PolicySetTheorems

  // The second run finds what the first left, reads the same bundle, and counts
  // on nothing the first had not counted on.
  ghost predicate Follows(c: Pass, d: Pass) {
    d.sets == Final(c).sets && d.bundle == c.bundle && Within(d.env, c.env)
  }

  lemma FollowerSound(c: Pass, d: Pass)
    requires Sound(c) && Follows(c, d)
    ensures Sound(d) && Grown(c.sets, d.sets)
  {
    hide Preflight, Grown, UniqueIds, UniqueNames, Importable, NamesOf, At, Within;
    Reached(c, |ReportOf(c)|);
    GrownIds(c.sets, d.sets);
  }

  // --- the same verdict, by name ------------------------------------------------------

  lemma UniqueByName(sets: seq<Held>, g: Held, h: Held)
    requires UniqueNames(sets) && g in sets && h in sets && g.name == h.name
    ensures g == h
  {
  }

  lemma NameKept(a: seq<Held>, b: seq<Held>, n: string)
    requires Grown(a, b) && UniqueNames(b) && n in SetsByName(a)
    ensures n in SetsByName(b) && SetsByName(b)[n].id == SetsByName(a)[n].id
    ensures Mine(SetsByName(b)[n]) == Mine(SetsByName(a)[n])
  {
    hide Grown, UniqueNames, Mine, SetsByName;
    SetsByNameKeys(a);
    SetsByNameKeys(b);
    GrownIds(a, b);
    var h := SetsByName(a)[n];
    var i :| 0 <= i < |a| && a[i] == h;
    SetKept(a, b, i);
    UniqueByName(b, b[i], SetsByName(b)[n]);
  }

  lemma NewNameIsMine(a: seq<Held>, b: seq<Held>, n: string)
    requires Grown(a, b) && UniqueNames(b) && n in SetsByName(b) && n !in SetsByName(a)
    ensures Mine(SetsByName(b)[n])
  {
    hide UniqueNames, Mine, SetsByName;
    SetsByNameKeys(a);
    SetsByNameKeys(b);
    forall j | 0 <= j < |a|
      ensures b[j].name in SetsByName(a)
    {
      assert Extends(a[j], b[j]) && a[j] in a;
      MineKept(a[j], b[j]);
    }
    var i :| 0 <= i < |b| && b[i] == SetsByName(b)[n];
  }

  lemma RuleMonotone(r: Rule, k: RuleKind, later: Env, earlier: Env)
    requires Within(later, earlier) && CheckRule(r, k, later) == Fine
    ensures CheckRule(r, k, earlier) == Fine
  {
    if r.condition.Some? { CheckMonotone(r.condition.value, later, earlier); }
    if k == Authorization { UnknownMonotone(r.profiles, later.profiles, earlier.profiles); }
  }

  lemma {:induction false} UnknownMonotone(names: seq<string>, later: set<string>, earlier: set<string>)
    requires later <= earlier && FirstUnknown(names, later).None?
    ensures FirstUnknown(names, earlier).None?
  {
    if names != [] { UnknownMonotone(names[1..], later, earlier); }
  }

  lemma SetMonotone(s: Set, later: Env, earlier: Env)
    requires Within(later, earlier) && CheckSet(s, later) == Fine
    ensures CheckSet(s, earlier) == Fine
  {
    hide CheckSet, CheckRule, Check;
    CheckersAgree(s, later);
    CheckersAgree(s, earlier);
    forall i | 0 <= i < |s.authn| ensures CheckRule(s.authn[i], Authentication, earlier) == Fine {
      RuleMonotone(s.authn[i], Authentication, later, earlier);
    }
    forall i | 0 <= i < |s.authz| ensures CheckRule(s.authz[i], Authorization, earlier) == Fine {
      RuleMonotone(s.authz[i], Authorization, later, earlier);
    }
    if s.condition.Some? { CheckMonotone(s.condition.value, later, earlier); }
  }

  lemma {:induction false} KeptMonotone(rs: seq<Rule>, k: RuleKind, later: Env, earlier: Env, r: Rule)
    requires Within(later, earlier) && r in PolicySets.Kept(rs, k, later)
    ensures r in PolicySets.Kept(rs, k, earlier)
  {
    hide CheckRule, Within;
    if CheckRule(rs[0], k, later) == Fine { RuleMonotone(rs[0], k, later, earlier); }
    if r in PolicySets.Kept(rs[1..], k, later) { KeptMonotone(rs[1..], k, later, earlier, r); }
  }

  // A set the second run would create, the first would have created, under the
  // same name.
  lemma CreatedBefore(a: seq<Held>, b: seq<Held>, i: nat, s: Set, later: Env, earlier: Env)
    requires Grown(a, b) && UniqueNames(b) && Within(later, earlier)
    requires Creates(Checked(b, i, s, later))
    ensures Creates(Checked(a, i, s, earlier)) && Target(Checked(a, i, s, earlier)) == Target(Checked(b, i, s, later))
  {
    hide Grown, UniqueNames, Mine, SetsByName, CheckSet, FreeNameFrom, Within;
    CreatedName(b, i, s, later);
    SetMonotone(s, later, earlier);
    var before, after := SetsByName(a), SetsByName(b);
    forall n | n in before
      ensures n in after && Mine(after[n]) == Mine(before[n])
    {
      NameKept(a, b, n);
    }
    forall n | n in after && n !in before
      ensures Mine(after[n])
    {
      NewNameIsMine(a, b, n);
    }
    if s.name in after {
      FreeNameKept(s.name, before, after, 1);
    }
  }

  // --- what a merge is about -------------------------------------------------------------

  lemma MergeEntry(sets: seq<Held>, i: nat, s: Set, env: Env, e: Entry, id: string)
    requires e in Entries(sets, i, s, env) && Merges(e, id)
    ensures var existing := SetsByName(sets);
            if s.isDefault then
              && DEFAULT in existing && id == existing[DEFAULT].id && e == Checked(sets, i, s, env)
              && e.obj == KeptSet(s, env) && s.name != ""
            else
              && s.name != "" && s.name in existing && Mine(existing[s.name]) && id == existing[s.name].id
              && CheckSet(s, env) == Fine && e.obj == s
  {
    hide Mine, SetsByName, CheckSet, FreeName, KeptSet, MissingAt;
  }

  // Set s is only ever merged, and only into this set of the target.
  ghost predicate OnlyMerged(sets: seq<Held>, i: nat, s: Set, env: Env, id: string) {
    forall e :: e in Entries(sets, i, s, env) ==> !Creates(e) && forall x :: Merges(e, x) ==> x == id
  }

  lemma DefaultIsMerged(sets: seq<Held>, i: nat, s: Set, env: Env)
    requires s.isDefault && s.name != "" && DEFAULT in SetsByName(sets) && SetsByName(sets)[DEFAULT].id != ""
    ensures var id := SetsByName(sets)[DEFAULT].id;
            && OnlyMerged(sets, i, s, env, id)
            && Merges(Checked(sets, i, s, env), id) && Checked(sets, i, s, env) in Entries(sets, i, s, env)
            && Checked(sets, i, s, env).obj == KeptSet(s, env)
  {
    hide Mine, SetsByName, CheckSet, FreeName, PolicySets.Kept, MissingAt;
  }

  lemma {:induction false} MissingHas(rs: seq<Rule>, k: RuleKind, have: set<string>, env: Env, r: Rule)
    requires r in rs && !r.isDefault && r.name !in have && CheckRule(r, k, env) == Fine
    ensures Missing(rs, k, have, env) != []
  {
    hide CheckRule;
    if r != rs[0] { MissingHas(rs[1..], k, have, env, r); }
  }

  // An earlier import that lacks a rule gets an entry that adds its rules.
  lemma MineMerged(sets: seq<Held>, i: nat, s: Set, env: Env, k: RuleKind, r: Rule)
    requires !s.isDefault && s.name != "" && s.name in SetsByName(sets) && Mine(SetsByName(sets)[s.name])
    requires SetsByName(sets)[s.name].id != "" && CheckSet(s, env) == Fine
    requires r in RulesOf(s, k) && !r.isDefault && r.name !in NamesAt(sets, SetsByName(sets)[s.name].id, k)
    ensures var id := SetsByName(sets)[s.name].id;
            && OnlyMerged(sets, i, s, env, id)
            && exists e :: e in Entries(sets, i, s, env) && Merges(e, id) && e.obj == s
  {
    hide Mine, SetsByName, CheckSet, NamesAt, CheckRule, Missing;
    var id := SetsByName(sets)[s.name].id;
    CheckersAgree(s, env);
    var j :| 0 <= j < |RulesOf(s, k)| && RulesOf(s, k)[j] == r;
    MissingHas(RulesOf(s, k), k, NamesAt(sets, id, k), env, r);
    assert MissingAt(sets, id, s, env) != [];
    var e := Entries(sets, i, s, env)[0];
    assert e in Entries(sets, i, s, env) && Merges(e, id) && e.obj == s;
  }

  // --- what is sent again -----------------------------------------------------------------

  ghost predicate Same(q: Post, p: Post) {
    && q.from == p.from
    && ((q.SetPost? && p.SetPost?) || (q.RulePost? && p.RulePost? && q.kind == p.kind && q.rule == p.rule))
  }

  // The request was tried before and did not get in: it did not land itself, or
  // the set it belongs to did not land or could not be read back.
  ghost predicate Retries(log: seq<Post>, p: Post) {
    && (forall q :: q in log && Same(q, p) ==> q.reply != Landed)
    && (exists q :: q in log && q.from == p.from
          && if q.SetPost? then !(q.reply == Landed && q.read) else Same(q, p))
  }

  // The rules of a set that is merged into can always be listed.
  ghost predicate ListsRules(w: World) { forall n: nat, k :: w.lists(n, k) }

  lemma MergeSendsMissing(d: Pass, j: nat, id: string, p: Post)
    requires Sound(d) && j < |ReportOf(d)| && Merges(ReportOf(d)[j], id)
    requires |At(d, j).log| <= |At(d, j + 1).log| && p in Part(d, j)
    ensures var e := ReportOf(d)[j];
            && p.RulePost? && p.from == e.from && p.rule in RulesOf(e.obj, p.kind) && !p.rule.isDefault
            && p.rule.name !in Listed(At(d, j), d.world, id, p.kind)
            && (ListsRules(d.world) ==> p.rule.name !in NamesAt(d.sets, id, p.kind))
  {
    hide Preflight, Holds, Ready, Merges, Grown, Creates, Keeps, SetCreated, At, NamesAt;
    Reached(d, j);
    StatesGrow(d, 0, j);
    var s := At(d, j);
    StartOf(d);
    GrownNames(d.sets, s.sets, id, Authentication);
    GrownNames(d.sets, s.sets, id, Authorization);
    assert p.RulePost?;
    if p.kind == Authentication {} else {}
  }

  lemma StartOf(d: Pass)
    ensures At(d, 0) == Start(d.sets, d.asked)
  {
    hide Preflight;
  }

  // Every request of an entry is for its own bundle set; without a set to create
  // or to merge into there is none.
  lemma PartFrom(c: Pass, k: nat, q: Post) returns (id: string)
    requires Sound(c) && k < |ReportOf(c)|
    requires |At(c, k).log| <= |At(c, k + 1).log| && q in Part(c, k)
    ensures var e := ReportOf(c)[k];
            && q.from == e.from
            && (Creates(e) || Merges(e, id))
  {
    hide Preflight, Holds, Ready, Merges, Grown, Creates, Keeps, At, NamesAt, Target;
    Reached(c, k);
    var e := ReportOf(c)[k];
    if x :| Merges(e, x) {
      id := x;
      MergedRules(c, k, id);
    } else if Creates(e) {
      id := "";
      var p := At(c, k + 1).log[|At(c, k).log|];
      assert At(c, k + 1).log[|At(c, k).log|..] == [p] + At(c, k + 1).log[|At(c, k).log| + 1..];
      if q != p { CreatedRules(c, k, p.id); }
    } else {
      id := "";
    }
  }

  // A bundle set that is only merged: what landed of it is in that set.
  lemma LandedInto(c: Pass, id: string, q: Post)
    requires Sound(c) && q in Final(c).log && q.from < |c.bundle|
    requires OnlyMerged(c.sets, q.from, c.bundle[q.from], c.env, id)
    ensures RuleSent(q, q.from, id, Final(c).sets)
  {
    hide Preflight, Holds, Ready, Merges, Grown, Creates, Keeps, At, NamesAt, Target, Entries;
    var k := PostOfEntry(c, |ReportOf(c)|, q);
    var x := PartFrom(c, k, q);
    var e := ReportOf(c)[k];
    ReportEntries(c.sets, c.bundle, c.env);
    assert EntryOf(c.sets, c.bundle, c.env, e);
    MergedRules(c, k, x);
  }

  lemma EntryPlace(c: Pass, i: nat, e: Entry) returns (k: nat)
    requires i < |c.bundle| && e in Entries(c.sets, i, c.bundle[i], c.env)
    ensures k < |ReportOf(c)| && ReportOf(c)[k] == e && e.from == i
  {
    hide Preflight, Entries;
    ReportEntries(c.sets, c.bundle, c.env);
    EntriesFrom(c.sets, i, c.bundle[i], c.env);
    assert e in Preflight(c.sets, c.bundle, c.env);
    k :| 0 <= k < |ReportOf(c)| && ReportOf(c)[k] == e;
  }

  lemma InPart(c: Pass, k: nat, q: Post)
    requires Sound(c) && k < |ReportOf(c)|
    requires |At(c, k).log| <= |At(c, k + 1).log| && q in Part(c, k)
    ensures q in Final(c).log
  {
    hide Preflight, At;
    StatesGrow(c, k + 1, |ReportOf(c)|);
  }

  // A rule the second run adds to a set the first one already merged into.
  lemma MergeRetries(c: Pass, e: Entry, id: string, p: Post)
    requires Sound(c) && p.RulePost? && p.from < |c.bundle|
    requires OnlyMerged(c.sets, p.from, c.bundle[p.from], c.env, id)
    requires e in Entries(c.sets, p.from, c.bundle[p.from], c.env) && Merges(e, id)
    requires p.rule in RulesOf(e.obj, p.kind) && !p.rule.isDefault
    requires p.rule.name !in NamesAt(Final(c).sets, id, p.kind)
    ensures Retries(Final(c).log, p)
  {
    hide Preflight, At, NamesAt, Entries, OnlyMerged, Merges;
    var k := EntryPlace(c, p.from, e);
    MergedRules(c, k, id);
    var q :| q in Part(c, k) && q.RulePost? && q.from == e.from && q.kind == p.kind && q.rule == p.rule;
    InPart(c, k, q);
    assert Same(q, p);
    forall x | x in Final(c).log && Same(x, p)
      ensures x.reply != Landed
    {
      LandedInto(c, id, x);
    }
  }

  // --- a set created by the first run -------------------------------------------------------

  // A name the target did not have belongs to a set some entry created.
  lemma {:induction false} CreatorOf(c: Pass, n: nat, name: string) returns (k: nat)
    requires Sound(c) && n <= |ReportOf(c)| && name in NamesOf(At(c, n).sets) && name !in NamesOf(c.sets)
    ensures k < n && Creates(ReportOf(c)[k]) && Target(ReportOf(c)[k]) == name
    ensures At(c, k).sets != At(c, k + 1).sets
  {
    hide Preflight, Holds, Ready, Merges, Grown, Creates, SetCreated, Filled, At, NamesOf, Target;
    StartOf(c);
    if n == 0 {
      assert false;
    } else if name in NamesOf(At(c, n - 1).sets) {
      k := CreatorOf(c, n - 1, name);
    } else {
      Reached(c, n - 1);
      k := n - 1;
    }
  }

  lemma CreatorLanded(c: Pass, k: nat) returns (id: string, read: bool)
    requires Sound(c) && k < |ReportOf(c)| && Creates(ReportOf(c)[k]) && At(c, k).sets != At(c, k + 1).sets
    ensures LandedAs(c, k, id, read)
  {
    hide Preflight, Holds, Ready, Merges, Grown, Creates, Keeps, Filled, At, NamesOf, Target, Tried, Sent;
    Reached(c, k);
    assert SetCreated(At(c, k), At(c, k + 1), ReportOf(c)[k]);
    var p := At(c, k + 1).log[|At(c, k).log|];
    id, read := p.id, p.read;
  }

  // The entry that created a set called s.name is the one of s itself.
  lemma CreatorIsOwn(c: Pass, k: nat, i: nat)
    requires Sound(c) && k < |ReportOf(c)| && i < |c.bundle|
    requires Creates(ReportOf(c)[k]) && Target(ReportOf(c)[k]) == c.bundle[i].name
    ensures ReportOf(c)[k] == Checked(c.sets, i, c.bundle[i], c.env) && ReportOf(c)[k].from == i
  {
    hide Preflight, Creates, Target, Entries, Suffix, Checked, UniqueIds, UniqueNames, NamesOf;
    var e := ReportOf(c)[k];
    ReportEntries(c.sets, c.bundle, c.env);
    assert EntryOf(c.sets, c.bundle, c.env, e);
    EntriesFrom(c.sets, e.from, c.bundle[e.from], c.env);
    CreatedName(c.sets, e.from, c.bundle[e.from], c.env);
    var t := c.bundle[e.from];
    assert !Shaped(c.bundle[i].name);
    forall l | 1 <= l < 100
      ensures t.name + Suffix(l) != c.bundle[i].name
    {
    }
  }

  // Every request for a set the first run created, or tried to.
  lemma OwnRequests(c: Pass, i: nat, h: Held, q: Post)
    requires Sound(c) && i < |c.bundle| && q in Final(c).log && q.from == i
    requires Creates(Checked(c.sets, i, c.bundle[i], c.env))
    requires UniqueNames(Final(c).sets) && h in Final(c).sets
    requires h.name == Target(Checked(c.sets, i, c.bundle[i], c.env))
    ensures q.RulePost? ==> RuleSent(q, i, h.id, Final(c).sets)
  {
    hide Preflight, Holds, Ready, Merges, Grown, Creates, Keeps, Filled, At, NamesOf, Target, Tried, Sent, Checked,
         Entries, UniqueIds, UniqueNames, Importable, NamesAt;
    var k := PostOfEntry(c, |ReportOf(c)|, q);
    var _ := PartFrom(c, k, q);
    var e := ReportOf(c)[k];
    ReportEntries(c.sets, c.bundle, c.env);
    assert EntryOf(c.sets, c.bundle, c.env, e);
    CreatesAlone(c.sets, i, c.bundle[i], c.env, e);
    Reached(c, k);
    assert SetCreated(At(c, k), At(c, k + 1), e);
    var s, t := At(c, k), At(c, k + 1);
    var p := t.log[|s.log|];
    assert t.log[|s.log|..] == [p] + t.log[|s.log| + 1..];
    if q.RulePost? {
      assert q in t.log[|s.log| + 1..];
      assert LandedAs(c, k, p.id, true);
      LandedIsThere(c, k, p.id, true);
      var g :| g in Final(c).sets && g.id == p.id && g.name == Target(e);
      UniqueByName(Final(c).sets, g, h);
      CreatedRules(c, k, p.id);
    }
  }

  lemma CreatesAlone(sets: seq<Held>, i: nat, s: Set, env: Env, e: Entry)
    requires Creates(Checked(sets, i, s, env)) && e in Entries(sets, i, s, env)
    ensures e == Checked(sets, i, s, env)
  {
    hide ByName, CheckSet, KeptSet, MissingAt;
  }

  // A rule the second run adds to a set the first one created.
  lemma CreatedRetries(c: Pass, i: nat, h: Held, p: Post)
    requires Sound(c) && i < |c.bundle| && p.RulePost? && p.from == i && UniqueNames(Final(c).sets)
    requires h in Final(c).sets && h.name == c.bundle[i].name && h.name !in NamesOf(c.sets)
    requires p.rule in RulesOf(c.bundle[i], p.kind) && !p.rule.isDefault
    requires p.rule.name !in NamesAt(Final(c).sets, h.id, p.kind)
    ensures Retries(Final(c).log, p)
  {
    hide Preflight, Holds, Ready, Merges, Grown, Creates, Keeps, Filled, At, Target, Tried, Sent, Checked, Entries,
         UniqueIds, UniqueNames, Importable, NamesAt, SetCreated;
    var n := |ReportOf(c)|;
    var k := CreatorOf(c, n, h.name);
    var id, read := CreatorLanded(c, k);
    CreatorIsOwn(c, k, i);
    var e := ReportOf(c)[k];
    LandedIsThere(c, k, id, read);
    var g :| g in Final(c).sets && g.id == id && g.name == Target(e);
    UniqueByName(Final(c).sets, g, h);
    CreatedName(c.sets, i, c.bundle[i], c.env);
    forall x | x in Final(c).log && Same(x, p)
      ensures x.reply != Landed
    {
      OwnRequests(c, i, h, x);
    }
    var q := CreatedWitness(c, k, id, read, p);
  }

  lemma CreatedWitness(c: Pass, k: nat, id: string, read: bool, p: Post) returns (q: Post)
    requires Sound(c) && k < |ReportOf(c)| && Creates(ReportOf(c)[k]) && LandedAs(c, k, id, read)
    requires p.RulePost? && p.from == ReportOf(c)[k].from
    requires p.rule in RulesOf(ReportOf(c)[k].obj, p.kind) && !p.rule.isDefault
    ensures q in Final(c).log && q.from == p.from && if q.SetPost? then !(q.reply == Landed && q.read) else Same(q, p)
  {
    hide Preflight, Holds, Ready, Merges, Grown, Creates, Keeps, Filled, At, Target, Tried, Sent, NamesAt;
    Reached(c, k);
    StatesGrow(c, k + 1, |ReportOf(c)|);
    var s, t := At(c, k), At(c, k + 1);
    assert SetCreated(s, t, ReportOf(c)[k]);
    if read {
      CreatedRules(c, k, id);
      q :| q in t.log[|s.log| + 1..] && q.RulePost? && q.from == p.from && q.kind == p.kind && q.rule == p.rule;
    } else {
      q := t.log[|s.log|];
    }
    assert q in t.log;
  }

  // --- a set the second run creates -----------------------------------------------------------

  lemma SetRetries(c: Pass, i: nat, p: Post)
    requires Sound(c) && i < |c.bundle| && p.from == i
    requires Creates(Checked(c.sets, i, c.bundle[i], c.env))
    requires Target(Checked(c.sets, i, c.bundle[i], c.env)) !in NamesOf(Final(c).sets)
    ensures Retries(Final(c).log, p)
  {
    hide Preflight, Holds, Ready, Merges, Grown, Creates, Keeps, Filled, At, Target, Tried, Sent, Checked, Entries,
         UniqueIds, UniqueNames, Importable, NamesAt;
    var e := Checked(c.sets, i, c.bundle[i], c.env);
    EntriesFrom(c.sets, i, c.bundle[i], c.env);
    var k := EntryPlace(c, i, e);
    var q := RefusedSet(c, k, e, p.from);
    forall x | x in Final(c).log && x.from == i
      ensures x.reply != Landed
    {
      var l := PostOfEntry(c, |ReportOf(c)|, x);
      var _ := PartFrom(c, l, x);
      ReportEntries(c.sets, c.bundle, c.env);
      assert EntryOf(c.sets, c.bundle, c.env, ReportOf(c)[l]);
      CreatesAlone(c.sets, i, c.bundle[i], c.env, ReportOf(c)[l]);
      var y := RefusedSet(c, l, e, i);
      assert Part(c, l) == [y];
    }
  }

  // A set that is not on the target at the end did not land.
  lemma RefusedSet(c: Pass, k: nat, e: Entry, i: nat) returns (q: Post)
    requires Sound(c) && k < |ReportOf(c)| && ReportOf(c)[k] == e && e.from == i
    requires Creates(e) && Target(e) !in NamesOf(Final(c).sets)
    ensures q in Final(c).log && q.from == i && q.SetPost? && q.reply != Landed
    ensures |At(c, k).log| <= |At(c, k + 1).log| && Part(c, k) == [q]
  {
    hide Preflight, Holds, Ready, Merges, Grown, Creates, Keeps, Filled, At, Target, Tried, Sent, NamesAt;
    Reached(c, k);
    StatesGrow(c, k + 1, |ReportOf(c)|);
    var s, t := At(c, k), At(c, k + 1);
    assert SetCreated(s, t, e);
    q := t.log[|s.log|];
    if q.reply == Landed {
      assert LandedAs(c, k, q.id, q.read);
      LandedIsThere(c, k, q.id, q.read);
      assert false;
    }
    assert q in t.log && q in Part(c, k);
  }

  // --- main results ------------------------------------------------------------------------------

  lemma MergedInto(c: Pass, d: Pass, j: nat, id: string, p: Post)
    requires Sound(c) && Follows(c, d) && Sound(d) && Grown(c.sets, d.sets) && j < |ReportOf(d)| && ListsRules(d.world)
    requires |At(d, j).log| <= |At(d, j + 1).log| && p in Part(d, j) && Merges(ReportOf(d)[j], id)
    ensures Retries(Final(c).log, p)
  {
    hide Preflight, Holds, Ready, Merges, Grown, Creates, Keeps, Filled, At, Target, Checked, Entries, UniqueIds,
         Importable, NamesAt, Retries, CheckSet, Mine, SetsByName, Within, OnlyMerged, KeptSet, UniqueNames, NamesOf;
    var e := ReportOf(d)[j];
    MergeSendsMissing(d, j, id, p);
    ReportEntries(d.sets, d.bundle, d.env);
    assert EntryOf(d.sets, d.bundle, d.env, e);
    var i := e.from;
    var s := c.bundle[i];
    MergeEntry(d.sets, i, s, d.env, e, id);
    SetsByNameKeys(c.sets);
    SetsByNameKeys(d.sets);
    if s.isDefault {
      NameKept(c.sets, d.sets, DEFAULT);
      IdNonempty(c.sets, DEFAULT);
      DefaultIsMerged(c.sets, i, s, c.env);
      KeptSetMonotone(s, p.kind, d.env, c.env, p.rule);
      MergeRetries(c, Checked(c.sets, i, s, c.env), id, p);
    } else if s.name in SetsByName(c.sets) {
      NameKept(c.sets, d.sets, s.name);
      IdNonempty(c.sets, s.name);
      SetMonotone(s, d.env, c.env);
      GrownNames(c.sets, d.sets, id, p.kind);
      MineMerged(c.sets, i, s, c.env, p.kind, p.rule);
      var e1 :| e1 in Entries(c.sets, i, s, c.env) && Merges(e1, id) && e1.obj == s;
      MergeRetries(c, e1, id, p);
    } else {
      CreatedRetries(c, i, SetsByName(d.sets)[s.name], p);
    }
  }

  lemma IdNonempty(sets: seq<Held>, name: string)
    requires UniqueIds(sets) && name in SetsByName(sets)
    ensures SetsByName(sets)[name].id != ""
  {
    hide SetsByName;
    SetsByNameKeys(sets);
  }

  lemma KeptSetMonotone(s: Set, k: RuleKind, later: Env, earlier: Env, r: Rule)
    requires Within(later, earlier) && r in RulesOf(KeptSet(s, later), k)
    ensures r in RulesOf(KeptSet(s, earlier), k)
  {
    hide Within, PolicySets.Kept;
    if k == Authentication {
      KeptMonotone(s.authn, k, later, earlier, r);
    } else {
      KeptMonotone(s.authz, k, later, earlier, r);
    }
  }

  lemma RequestRetries(c: Pass, d: Pass, p: Post)
    requires Sound(c) && Follows(c, d) && ListsRules(d.world) && p in Final(d).log
    ensures Retries(Final(c).log, p)
  {
    hide Preflight, Holds, Ready, Merges, Grown, Creates, Keeps, Filled, At, Target, Tried, Sent, Checked, Entries,
         UniqueIds, UniqueNames, Importable, NamesAt, Within, Retries;
    FollowerSound(c, d);
    var j := PostOfEntry(d, |ReportOf(d)|, p);
    var id := PartFrom(d, j, p);
    var e := ReportOf(d)[j];
    if Creates(e) {
      ReportEntries(d.sets, d.bundle, d.env);
      assert EntryOf(d.sets, d.bundle, d.env, e);
      EntriesFrom(d.sets, e.from, d.bundle[e.from], d.env);
      CreatedName(d.sets, e.from, d.bundle[e.from], d.env);
      CreatedBefore(c.sets, d.sets, e.from, d.bundle[e.from], d.env, c.env);
      SetRetries(c, e.from, p);
    } else {
      MergedInto(c, d, j, id, p);
    }
  }

  // Under any answers to the first run, whatever a second run sends - a set or a
  // rule - the first had sent as well and did not get in: nothing that landed is
  // sent again, and nothing is sent that had not been tried.
  lemma RerunRetriesOnlyWhatDidNotLand(c: Pass, d: Pass)
    requires Sound(c) && Follows(c, d) && ListsRules(d.world)
    ensures forall p :: p in Final(d).log ==> Retries(Final(c).log, p)
  {
    hide Sound, Follows, Final, Retries;
    forall p | p in Final(d).log
      ensures Retries(Final(c).log, p)
    {
      RequestRetries(c, d, p);
    }
  }

  // When everything the first run sent landed, a second run sends nothing, and
  // leaves the target as it is.
  lemma CompletedRunIsFinal(c: Pass, d: Pass)
    requires Sound(c) && Follows(c, d) && ListsRules(d.world)
    requires forall q :: q in Final(c).log ==> q.reply == Landed && (q.SetPost? ==> q.read)
    ensures Final(d).log == [] && Final(d).sets == d.sets
  {
    hide Preflight, At, Follows;
    var log := Final(d).log;
    assert |log| > 0 ==> log[0] in log;
    forall p | p in log
      ensures false
    {
      RequestRetries(c, d, p);
    }
    FollowerIsSound(c, d);
    SilentRun(d, |ReportOf(d)|);
  }

  lemma FollowerIsSound(c: Pass, d: Pass)
    requires Sound(c) && Follows(c, d)
    ensures Sound(d)
  {
    FollowerSound(c, d);
  }

  // Without a request, nothing changes.
  lemma {:induction false} SilentRun(d: Pass, n: nat)
    requires Sound(d) && n <= |ReportOf(d)| && At(d, n).log == []
    ensures At(d, n).sets == d.sets
  {
    hide Preflight, Holds, Ready, Merges, Grown, Creates, Keeps, At, Target, Tried, Sent, NamesAt;
    StartOf(d);
    if n > 0 {
      Reached(d, n - 1);
      StatesGrow(d, n - 1, n);
      SilentRun(d, n - 1);
      SilentStep(d, n - 1);
    }
  }

  lemma SilentStep(d: Pass, k: nat)
    requires Sound(d) && k < |ReportOf(d)| && At(d, k + 1).log == At(d, k).log
    ensures At(d, k + 1).sets == At(d, k).sets
  {
    hide Preflight, Holds, Ready;
    NextState(d, k);
    Reached(d, k);
    SilentStates(At(d, k), d.world, ReportOf(d)[k]);
  }

  lemma {:induction false} SilentRules(s: Run, w: World, from: nat, id: string, k: RuleKind, rs: seq<Rule>,
                                       have: set<string>)
    ensures var t := SendRules(s, w, from, id, k, rs, have);
            s.log <= t.log && (t.log == s.log ==> t.sets == s.sets)
  {
    hide AddRule;
    if rs != [] {
      SilentRules(s, w, from, id, k, rs[..|rs| - 1], have);
    }
  }

  lemma SilentStates(s: Run, w: World, e: Entry)
    requires Step(s, w, e).log == s.log
    ensures Step(s, w, e).sets == s.sets
  {
    hide SendRules, NamesAt, NewSet, FirstNamed, Ids;
    SilentFill(w, e.from, e.obj);
  }

  lemma SilentFill(w: World, from: nat, obj: Set)
    ensures forall s: Run, id, haveN, haveZ :: var t := Fill(s, w, from, id, obj, haveN, haveZ);
            s.log <= t.log && (t.log == s.log ==> t.sets == s.sets)
  {
    hide SendRules;
    forall s: Run, id, haveN, haveZ
      ensures var t := Fill(s, w, from, id, obj, haveN, haveZ);
              s.log <= t.log && (t.log == s.log ==> t.sets == s.sets)
    {
      SilentRules(s, w, from, id, Authentication, obj.authn, haveN);
      var t := SendRules(s, w, from, id, Authentication, obj.authn, haveN);
      SilentRules(t, w, from, id, Authorization, obj.authz, haveZ);
    }
  }
}
