// When a set of an earlier import gets the rules it lacks: exactly when it went in
// under its own name and, on the later run, resolves whole.
module PolicySetCompletion {
  import opened Objects
  import opened Report
  import opened Conditions
  import opened PolicySets
  import opened PolicySetNames
  import opened PolicySetRuns
  import opened PolicySetTheorems
  import opened PolicySetRetry
  import opened PolicySetArrivals

  // --- one pre-flight -----------------------------------------------------------------

  // The target's set of this id lacks a rule of the bundle's.
  ghost predicate Lacks(sets: seq<Held>, id: string, s: Set) {
    exists k, r :: r in RulesOf(s, k) && !r.isDefault && r.name !in NamesAt(sets, id, k)
  }

  ghost predicate Completable(sets: seq<Held>, s: Set, env: Env) {
    && s.name != "" && s.name in SetsByName(sets)
    && var h := SetsByName(sets)[s.name];
       Mine(h) && h.id != "" && CheckSet(s, env) == Fine && Lacks(sets, h.id, s)
  }

  lemma {:induction false} MissingIsLacking(rs: seq<Rule>, k: RuleKind, have: set<string>, env: Env)
    requires Missing(rs, k, have, env) != []
    ensures exists r :: r in rs && !r.isDefault && r.name !in have
  {
    hide CheckRule;
    if rs[0].isDefault || rs[0].name in have || CheckRule(rs[0], k, env) != Fine {
      MissingIsLacking(rs[1..], k, have, env);
    } else {
      assert rs[0] in rs;
    }
  }

  lemma MergedSetLacks(sets: seq<Held>, i: nat, s: Set, env: Env, e: Entry, id: string)
    requires !s.isDefault && e in Entries(sets, i, s, env) && Merges(e, id)
    ensures Completable(sets, s, env) && id == SetsByName(sets)[s.name].id
  {
    MergeEntry(sets, i, s, env, e, id);
    assert id != "" && MissingAt(sets, id, s, env) != [] by { MergesMissing(sets, i, s, env, e, id); }
    hide Mine, SetsByName, CheckSet, NamesAt, CheckRule, Missing, Entries, Merges;
    if Missing(s.authn, Authentication, NamesAt(sets, id, Authentication), env) != [] {
      MissingIsLacking(s.authn, Authentication, NamesAt(sets, id, Authentication), env);
      var r :| r in s.authn && !r.isDefault && r.name !in NamesAt(sets, id, Authentication);
      assert r in RulesOf(s, Authentication);
    } else {
      MissingIsLacking(s.authz, Authorization, NamesAt(sets, id, Authorization), env);
      var r :| r in s.authz && !r.isDefault && r.name !in NamesAt(sets, id, Authorization);
      assert r in RulesOf(s, Authorization);
    }
  }

  lemma MergesMissing(sets: seq<Held>, i: nat, s: Set, env: Env, e: Entry, id: string)
    requires !s.isDefault && e in Entries(sets, i, s, env) && Merges(e, id)
    ensures id != "" && MissingAt(sets, id, s, env) != []
  {
    hide Mine, SetsByName, CheckSet, FreeName, KeptSet, MissingAt;
  }

  // Pre-flight adds rules to an earlier import if and only if it holds the set's
  // own name, carries the marker, lacks a rule, and the set resolves whole. One
  // unresolved name anywhere in the set is enough to leave out every rule.
  lemma MergesExactly(sets: seq<Held>, i: nat, s: Set, env: Env)
    requires !s.isDefault
    ensures (exists e, id :: e in Entries(sets, i, s, env) && Merges(e, id)) <==> Completable(sets, s, env)
  {
    hide Mine, SetsByName, CheckSet, NamesAt, Entries, Merges;
    if e, id :| e in Entries(sets, i, s, env) && Merges(e, id) {
      MergedSetLacks(sets, i, s, env, e, id);
    }
    if Completable(sets, s, env) {
      var k, r :| r in RulesOf(s, k) && !r.isDefault && r.name !in NamesAt(sets, SetsByName(sets)[s.name].id, k);
      MineMerged(sets, i, s, env, k, r);
    }
  }

  // --- the set an earlier run put there -----------------------------------------------

  // A later run over what this one left: the same bundle, whatever the target can
  // name by then.
  ghost predicate Resumes(c: Pass, d: Pass) { d.sets == Final(c).sets && d.bundle == c.bundle }

  lemma ResumedSound(c: Pass, d: Pass)
    requires Sound(c) && Resumes(c, d)
    ensures Sound(d) && Grown(c.sets, d.sets)
  {
    hide Preflight, Grown, UniqueIds, UniqueNames, Importable, NamesOf, At;
    Reached(c, |ReportOf(c)|);
    GrownIds(c.sets, d.sets);
  }

  ghost predicate PutThere(c: Pass, p: Post) {
    p in Final(c).log && p.SetPost? && p.reply == Landed && p.from < |c.bundle|
  }

  lemma CreatorOfPost(c: Pass, p: Post) returns (k: nat)
    requires Sound(c) && PutThere(c, p)
    ensures k < |ReportOf(c)| && Creates(ReportOf(c)[k]) && LandedAs(c, k, p.id, p.read)
    ensures ReportOf(c)[k] == Checked(c.sets, p.from, c.bundle[p.from], c.env) && p.name == Target(ReportOf(c)[k])
  {
    hide Preflight, Holds, Ready, Merges, Grown, Creates, Keeps, Filled, At, NamesAt, Target, Tried, Sent, Entries,
         Checked;
    k := PostOfEntry(c, |ReportOf(c)|, p);
    var id := PartFrom(c, k, p);
    var e := ReportOf(c)[k];
    if Merges(e, id) { MergedRules(c, k, id); }
    ReportEntries(c.sets, c.bundle, c.env);
    assert EntryOf(c.sets, c.bundle, c.env, e);
    EntriesFrom(c.sets, e.from, c.bundle[e.from], c.env);
    Reached(c, k);
    var s, t := At(c, k), At(c, k + 1);
    assert SetCreated(s, t, e);
    var first, rest := t.log[|s.log|], t.log[|s.log| + 1..];
    assert t.log[|s.log|..] == [first] + rest;
    assert p in Part(c, k) && Part(c, k) == [first] + rest;
    assert p != first ==> p in rest;
    assert forall q :: q in rest ==> q.RulePost?;
    assert p == first;
  }

  // It is there on the later run, under its name, id and marker.
  lemma PutThereIsMine(c: Pass, d: Pass, p: Post)
    requires Sound(c) && Resumes(c, d) && PutThere(c, p)
    ensures p.name !in SetsByName(c.sets) && p.name in SetsByName(d.sets)
    ensures SetsByName(d.sets)[p.name].id == p.id && Mine(SetsByName(d.sets)[p.name])
  {
    hide Preflight, Grown, Creates, At, Target, Checked, UniqueIds, UniqueNames, Importable, Mine, SetsByName, LandedAs;
    ResumedSound(c, d);
    var k := CreatorOfPost(c, p);
    CreatedName(c.sets, p.from, c.bundle[p.from], c.env);
    LandedIsThere(c, k, p.id, p.read);
    var h :| h in d.sets && h.id == p.id && h.name == p.name;
    SetsByNameKeys(c.sets);
    SetsByNameKeys(d.sets);
    UniqueByName(d.sets, h, SetsByName(d.sets)[p.name]);
    NewNameIsMine(c.sets, d.sets, p.name);
  }

  // --- nothing is sent for a set without an entry to send it ------------------------------

  ghost predicate Idle(d: Pass, i: nat)
    requires i < |d.bundle|
  {
    forall e :: e in Entries(d.sets, i, d.bundle[i], d.env) ==> !Creates(e) && forall id :: !Merges(e, id)
  }

  lemma IdleSendsNothing(d: Pass, i: nat)
    requires Sound(d) && i < |d.bundle| && Idle(d, i)
    ensures forall q :: q in Final(d).log ==> q.from != i
  {
    hide Preflight, Merges, Creates, At, Entries, Sound;
    forall q | q in Final(d).log
      ensures q.from != i
    {
      var k := PostOfEntry(d, |ReportOf(d)|, q);
      var id := PartFrom(d, k, q);
      ReportEntries(d.sets, d.bundle, d.env);
      assert EntryOf(d.sets, d.bundle, d.env, ReportOf(d)[k]);
    }
  }

  // A set that went in beside a stranger's of the same name is recognised by its
  // own name on a later run, and skipped, whatever it lacks.
  lemma BesideIsIdle(sets: seq<Held>, i: nat, s: Set, env: Env, k: nat)
    requires !s.isDefault && s.name != "" && s.name in SetsByName(sets) && !Mine(SetsByName(sets)[s.name])
    requires 1 <= k < 100 && s.name + Suffix(k) in SetsByName(sets) && Mine(SetsByName(sets)[s.name + Suffix(k)])
    requires forall j :: 1 <= j < k ==> s.name + Suffix(j) in SetsByName(sets)
    ensures forall e :: e in Entries(sets, i, s, env) ==> !Creates(e) && forall id :: !Merges(e, id)
  {
    hide Mine, SetsByName, CheckSet, Suffix, FreeNameFrom;
    BesideIsFound(s.name, SetsByName(sets), 1, k);
  }

  lemma {:induction false} BesideIsFound(name: string, existing: map<string, Held>, i: nat, k: nat)
    requires 1 <= i <= k < 100 && name + Suffix(k) in existing && Mine(existing[name + Suffix(k)])
    requires forall j :: i <= j < k ==> name + Suffix(j) in existing
    ensures FreeNameFrom(name, existing, i) == ""
    decreases k - i
  {
    hide Mine, Suffix;
    if i < k { BesideIsFound(name, existing, i + 1, k); }
  }

  // The name a set was created under beside a stranger's.
  lemma CreatedBeside(sets: seq<Held>, i: nat, s: Set, env: Env) returns (k: nat)
    requires Creates(Checked(sets, i, s, env)) && Target(Checked(sets, i, s, env)) != s.name
    ensures s.name in SetsByName(sets) && !Mine(SetsByName(sets)[s.name]) && s.name != "" && !s.isDefault
    ensures 1 <= k < 100 && Target(Checked(sets, i, s, env)) == s.name + Suffix(k)
    ensures forall j :: 1 <= j < k ==> s.name + Suffix(j) in SetsByName(sets)
  {
    hide CheckSet, Suffix, Mine, FreeNameFrom, SetsByName;
    k := FreeNameIs(s.name, SetsByName(sets), 1);
  }

  lemma BesideStaysIdle(c: Pass, d: Pass, p: Post)
    requires Sound(c) && Resumes(c, d) && PutThere(c, p) && p.name != c.bundle[p.from].name
    ensures Idle(d, p.from)
  {
    hide Preflight, Grown, Creates, At, Target, Checked, UniqueIds, UniqueNames, Importable, Mine, SetsByName,
         LandedAs, Entries, Suffix, Merges;
    ResumedSound(c, d);
    var s := c.bundle[p.from];
    var l := CreatorOfPost(c, p);
    var k := CreatedBeside(c.sets, p.from, s, c.env);
    PutThereIsMine(c, d, p);
    NameKept(c.sets, d.sets, s.name);
    forall j | 1 <= j < k
      ensures s.name + Suffix(j) in SetsByName(d.sets)
    {
      NameKept(c.sets, d.sets, s.name + Suffix(j));
    }
    BesideIsIdle(d.sets, p.from, s, d.env, k);
  }

  // A set that no longer resolves whole is blocked, and its resolvable rules with it.
  lemma UnresolvedIsIdle(sets: seq<Held>, i: nat, s: Set, env: Env)
    requires !s.isDefault && CheckSet(s, env) != Fine
    ensures forall e :: e in Entries(sets, i, s, env) ==> !Creates(e) && forall id :: !Merges(e, id)
  {
    hide Mine, SetsByName, CheckSet, FreeName;
  }

  // --- the rules a merge sends ------------------------------------------------------------

  // A rule the target's set gained came with a request into that set.
  lemma {:induction false} GainedByRequest(sets: seq<Held>, log: seq<Post>, bundle: seq<Set>, w: World, id: string,
                                           k: RuleKind, name: string)
    requires name in NamesAt(Replay(sets, log, bundle, w), id, k) && name !in NamesAt(sets, id, k)
    ensures exists p :: p in log && p.reply == Landed && p.id == id
  {
    hide NewSet, PostedRule, NamesAt;
    var n := |log| - 1;
    if log == [] {
      ReplayNothing(sets, bundle, w);
      assert false;
    } else if name in NamesAt(Replay(sets, log[..n], bundle, w), id, k) {
      GainedByRequest(sets, log[..n], bundle, w, id, k, name);
      assert forall p :: p in log[..n] ==> p in log;
    } else {
      GainedOne(Replay(sets, log[..n], bundle, w), log[n], bundle, w, id, k, name);
      assert log[n] in log;
    }
  }

  lemma GainedOne(sets: seq<Held>, p: Post, bundle: seq<Set>, w: World, id: string, k: RuleKind, name: string)
    requires name in NamesAt(ReplayOne(sets, p, bundle, w), id, k) && name !in NamesAt(sets, id, k)
    ensures p.reply == Landed && p.id == id
  {
    hide PostedRule, RewriteCondition, Marker.Tag;
    var after := ReplayOne(sets, p, bundle, w);
    var h, r :| h in after && h.id == id && r in Rules(h, k) && r.name == name;
    var i :| 0 <= i < |after| && after[i] == h;
    if i < |sets| { assert sets[i] in sets; }
  }

  // A request that lands in a set the target had is sent by a merge into it.
  lemma LandedByMerge(d: Pass, n: nat, p: Post, id: string)
    requires Sound(d) && n <= |ReportOf(d)| && p in At(d, n).log && p.reply == Landed && p.id == id && id in Ids(d.sets)
    ensures exists k :: 0 <= k < n && Merges(ReportOf(d)[k], id)
  {
    hide Preflight, Holds, Ready, Merges, Grown, Creates, Keeps, Filled, At, NamesAt, Target, Tried, Ids;
    var k := PostOfEntry(d, n, p);
    var x := PartFrom(d, k, p);
    var e := ReportOf(d)[k];
    if Merges(e, x) {
      MergedRules(d, k, x);
    } else {
      Reached(d, k);
      StatesGrow(d, 0, k);
      StartOf(d);
      GrownIds(d.sets, At(d, k).sets);
      var s, t := At(d, k), At(d, k + 1);
      assert SetCreated(s, t, e);
      var first, rest := t.log[|s.log|], t.log[|s.log| + 1..];
      assert Part(d, k) == [first] + rest;
      if p != first {
        assert p in rest && p.RulePost?;
        if p.kind == Authentication {} else {}
      }
    }
  }

  lemma {:induction false} FirstMerge(d: Pass, k: nat, id: string) returns (j: nat)
    requires k < |ReportOf(d)| && Merges(ReportOf(d)[k], id)
    ensures j <= k && Merges(ReportOf(d)[j], id) && forall l :: 0 <= l < j ==> !Merges(ReportOf(d)[l], id)
  {
    hide Preflight, Merges;
    if l :| 0 <= l < k && Merges(ReportOf(d)[l], id) {
      j := FirstMerge(d, l, id);
    } else {
      j := k;
    }
  }

  // The first merge into a set finds it as the run found it.
  lemma FirstMergeSends(d: Pass, j: nat, id: string, k: RuleKind, r: Rule)
    requires Sound(d) && j < |ReportOf(d)| && Merges(ReportOf(d)[j], id) && id in Ids(d.sets)
    requires forall l :: 0 <= l < j ==> !Merges(ReportOf(d)[l], id)
    requires r in RulesOf(ReportOf(d)[j].obj, k) && !r.isDefault && r.name !in NamesAt(d.sets, id, k)
    ensures exists q :: q in Final(d).log && RequestFor(q, ReportOf(d)[j].from, id, k, r)
  {
    hide Preflight, Holds, Ready, Merges, Grown, Creates, Keeps, SetCreated, At, NamesAt, Ids;
    Reached(d, j);
    var s, t, e := At(d, j), At(d, j + 1), ReportOf(d)[j];
    if r.name in NamesAt(s.sets, id, k) {
      LogAccountsForTarget(d, j);
      GainedByRequest(d.sets, s.log, d.bundle, d.world, id, k, r.name);
      var p :| p in s.log && p.reply == Landed && p.id == id;
      LandedByMerge(d, j, p, id);
      assert false;
    }
    assert Filled(s, t, e.from, id, e.obj,
                  Listed(s, d.world, id, Authentication), Listed(s, d.world, id, Authorization));
    if k == Authentication {} else {}
    var q :| q in t.log[|s.log|..] && q.RulePost? && q.from == e.from && q.id == id && q.kind == k && q.rule == r;
    InPart(d, j, q);
    assert RequestFor(q, e.from, id, k, r);
  }

  predicate RequestFor(q: Post, from: nat, id: string, k: RuleKind, r: Rule) {
    q.RulePost? && q.from == from && q.id == id && q.kind == k && q.rule == r
  }

  lemma MergerIsOwn(d: Pass, j: nat, i: nat, id: string)
    requires Sound(d) && j < |ReportOf(d)| && Merges(ReportOf(d)[j], id) && i < |d.bundle|
    requires d.bundle[i].name in SetsByName(d.sets) && d.bundle[i].name != DEFAULT
    requires SetsByName(d.sets)[d.bundle[i].name].id == id
    ensures ReportOf(d)[j].from == i && ReportOf(d)[j].obj == d.bundle[i]
  {
    hide Preflight, Merges, Entries, Mine, SetsByName, CheckSet, KeptSet, Shaped, UniqueNames;
    var e := ReportOf(d)[j];
    ReportEntries(d.sets, d.bundle, d.env);
    assert EntryOf(d.sets, d.bundle, d.env, e);
    MergeEntry(d.sets, e.from, d.bundle[e.from], d.env, e, id);
    EntriesFrom(d.sets, e.from, d.bundle[e.from], d.env);
    SetsByNameKeys(d.sets);
  }

  lemma OwnIsSent(c: Pass, d: Pass, p: Post, k: RuleKind, r: Rule)
    requires Sound(c) && Resumes(c, d) && PutThere(c, p)
    requires p.name == c.bundle[p.from].name && CheckSet(c.bundle[p.from], d.env) == Fine
    requires r in RulesOf(c.bundle[p.from], k) && !r.isDefault && r.name !in NamesAt(d.sets, p.id, k)
    ensures exists q :: q in Final(d).log && RequestFor(q, p.from, p.id, k, r)
  {
    hide Preflight, Grown, Creates, At, Target, Checked, UniqueIds, UniqueNames, Importable, Mine, SetsByName,
         LandedAs, Entries, Merges, CheckSet, NamesAt;
    var i, s := p.from, c.bundle[p.from];
    ResumedSound(c, d);
    PutThereIsMine(c, d, p);
    var l := CreatorOfPost(c, p);
    CreatedName(c.sets, i, s, c.env);
    SetsByNameKeys(c.sets);
    SetsByNameKeys(d.sets);
    IdNonempty(d.sets, s.name);
    MineMerged(d.sets, i, s, d.env, k, r);
    var e :| e in Entries(d.sets, i, s, d.env) && Merges(e, p.id) && e.obj == s;
    var n := EntryPlace(d, i, e);
    var j := FirstMerge(d, n, p.id);
    MergerIsOwn(d, j, i, p.id);
    FirstMergeSends(d, j, p.id, k, r);
  }

  // The promise that an earlier import gets the rules it lacks, over two runs: a
  // rule that did not get into the set the first run put there is sent by the
  // next if and only if the set went in under its own name and, by then, resolves
  // whole. Whether the rule itself resolves does not help.
  lemma LeftOutRuleIsSentExactly(c: Pass, d: Pass, p: Post, k: RuleKind, r: Rule)
    requires Sound(c) && Resumes(c, d) && PutThere(c, p)
    requires r in RulesOf(c.bundle[p.from], k) && !r.isDefault && r.name !in NamesAt(d.sets, p.id, k)
    ensures (exists q :: q in Final(d).log && RequestFor(q, p.from, p.id, k, r)) <==>
            p.name == c.bundle[p.from].name && CheckSet(c.bundle[p.from], d.env) == Fine
  {
    hide Sound, Final, NamesAt, CheckSet, RequestFor;
    ResumedSound(c, d);
    var s := c.bundle[p.from];
    if p.name != s.name {
      BesideStaysIdle(c, d, p);
      IdleSendsNothing(d, p.from);
      OnlyFrom(d, p, k, r);
    } else if CheckSet(s, d.env) != Fine {
      var l := CreatorOfPost(c, p);
      CreatedName(c.sets, p.from, s, c.env);
      UnresolvedIsIdle(d.sets, p.from, s, d.env);
      IdleSendsNothing(d, p.from);
      OnlyFrom(d, p, k, r);
    } else {
      OwnIsSent(c, d, p, k, r);
    }
  }

  lemma OnlyFrom(d: Pass, p: Post, k: RuleKind, r: Rule)
    requires forall q :: q in Final(d).log ==> q.from != p.from
    ensures !exists q :: q in Final(d).log && RequestFor(q, p.from, p.id, k, r)
  {
    hide Final;
  }
}
