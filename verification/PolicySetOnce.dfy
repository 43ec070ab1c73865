// What landed once is not sent again, whatever the target can name by the next run -
// as long as the rules of the sets merged into can be listed.
module PolicySetOnce {
  import opened Objects
  import opened Report
  import opened Conditions
  import opened PolicySets
  import opened PolicySetNames
  import opened PolicySetRuns
  import opened PolicySetTheorems
  import opened PolicySetRetry
  import opened PolicySetCompletion
  import Marker

  // --- what one merge sends -------------------------------------------------------------

  // A merge sends a rule if and only if it is not a default one and not among those
  // it could list.
  lemma MergeSendsExactly(d: Pass, j: nat, id: string, k: RuleKind, r: Rule)
    requires Sound(d) && j < |ReportOf(d)| && Merges(ReportOf(d)[j], id)
    ensures |At(d, j).log| <= |At(d, j + 1).log|
    ensures (exists q :: q in Part(d, j) && RequestFor(q, ReportOf(d)[j].from, id, k, r)) <==>
            && r in RulesOf(ReportOf(d)[j].obj, k) && !r.isDefault
            && r.name !in Listed(At(d, j), d.world, id, k)
  {
    hide Preflight, Holds, Ready, Merges, Grown, Creates, Keeps, SetCreated, At, NamesAt, Listed;
    Reached(d, j);
    var s, t, e := At(d, j), At(d, j + 1), ReportOf(d)[j];
    assert Filled(s, t, e.from, id, e.obj,
                  Listed(s, d.world, id, Authentication), Listed(s, d.world, id, Authorization));
    if k == Authentication {} else {}
    if r in RulesOf(e.obj, k) && !r.isDefault && r.name !in Listed(s, d.world, id, k) {
      var q :| q in t.log[|s.log|..] && q.RulePost? && q.from == e.from && q.id == id && q.kind == k && q.rule == r;
      assert RequestFor(q, e.from, id, k, r);
    }
  }

  // --- nothing lands twice ----------------------------------------------------------------

  // An earlier import under the set's own name is never created again, and merged
  // into alone.
  lemma MineOnlyMerged(sets: seq<Held>, i: nat, s: Set, env: Env)
    requires !s.isDefault && s.name != "" && s.name in SetsByName(sets) && Mine(SetsByName(sets)[s.name])
    ensures OnlyMerged(sets, i, s, env, SetsByName(sets)[s.name].id)
  {
    hide Mine, SetsByName, CheckSet, FreeName, MissingAt;
  }

  // A set the first run merged into is, on the next, only merged into again.
  lemma MergedStaysMerged(c: Pass, d: Pass, i: nat, e: Entry, id: string)
    requires Sound(c) && Resumes(c, d) && i < |c.bundle|
    requires e in Entries(c.sets, i, c.bundle[i], c.env) && Merges(e, id)
    ensures OnlyMerged(d.sets, i, d.bundle[i], d.env, id)
  {
    hide Grown, UniqueIds, UniqueNames, Importable, Mine, SetsByName, Merges, Entries, OnlyMerged, CheckSet, KeptSet,
         Final, NamesOf;
    var s := c.bundle[i];
    ResumedSound(c, d);
    MergeEntry(c.sets, i, s, c.env, e, id);
    if s.isDefault {
      NameKept(c.sets, d.sets, DEFAULT);
      IdNonempty(d.sets, DEFAULT);
      DefaultIsMerged(d.sets, i, s, d.env);
    } else {
      NameKept(c.sets, d.sets, s.name);
      MineOnlyMerged(d.sets, i, s, d.env);
    }
  }

  // What is sent for a set that is only merged into is a rule it was not known to have.
  lemma OnlyMergedSends(d: Pass, p: Post, id: string)
    requires Sound(d) && ListsRules(d.world) && p in Final(d).log && p.from < |d.bundle|
    requires OnlyMerged(d.sets, p.from, d.bundle[p.from], d.env, id)
    ensures p.RulePost? && p.rule.name !in NamesAt(d.sets, id, p.kind)
  {
    hide Preflight, Merges, Creates, At, Entries, Sound, NamesAt, ListsRules, Listed;
    var k := PostOfEntry(d, |ReportOf(d)|, p);
    var x := PartFrom(d, k, p);
    ReportEntries(d.sets, d.bundle, d.env);
    assert EntryOf(d.sets, d.bundle, d.env, ReportOf(d)[k]);
    EntriesFrom(d.sets, p.from, d.bundle[p.from], d.env);
    MergeSendsMissing(d, k, x, p);
  }

  // A request that landed with the set it belongs to.
  lemma LandedWithSet(c: Pass, k: nat, q: Post) returns (sp: Post)
    requires Sound(c) && k < |ReportOf(c)| && Creates(ReportOf(c)[k]) && q.reply == Landed && q.from < |c.bundle|
    requires |At(c, k).log| <= |At(c, k + 1).log| && q in Part(c, k)
    ensures PutThere(c, sp) && sp.from == q.from
    ensures q.RulePost? ==> q.rule.name in NamesAt(Final(c).sets, sp.id, q.kind)
  {
    hide Preflight, Holds, Ready, Merges, Grown, Creates, Keeps, Filled, At, NamesAt, Target, Tried, Sent, Entries,
         Checked;
    Reached(c, k);
    var s, t := At(c, k), At(c, k + 1);
    assert SetCreated(s, t, ReportOf(c)[k]);
    sp := t.log[|s.log|];
    var rest := t.log[|s.log| + 1..];
    assert Part(c, k) == [sp] + rest;
    assert sp in Part(c, k);
    InPart(c, k, sp);
    var _ := PartFrom(c, k, q);
    var _ := PartFrom(c, k, sp);
    if q != sp {
      assert q in rest;
      assert LandedAs(c, k, sp.id, true);
      CreatedRules(c, k, sp.id);
      assert RuleSent(q, ReportOf(c)[k].from, sp.id, Final(c).sets);
    }
  }

  lemma LandedIsNotSent(c: Pass, d: Pass, p: Post, q: Post)
    requires Sound(c) && Resumes(c, d) && ListsRules(d.world)
    requires p in Final(d).log && q in Final(c).log && Same(q, p)
    ensures q.reply != Landed
  {
    hide Preflight, Merges, Creates, At, Entries, Sound, NamesAt, ListsRules, OnlyMerged, PutThere, Idle;
    if q.reply == Landed {
      ResumedSound(c, d);
      var k := PostOfEntry(c, |ReportOf(c)|, q);
      var id := PartFrom(c, k, q);
      var e := ReportOf(c)[k];
      ReportEntries(c.sets, c.bundle, c.env);
      assert EntryOf(c.sets, c.bundle, c.env, e);
      if Merges(e, id) {
        MergedRules(c, k, id);
        MergedStaysMerged(c, d, q.from, e, id);
        OnlyMergedSends(d, p, id);
      } else {
        var sp := LandedWithSet(c, k, q);
        SetStaysPut(c, d, p, sp);
      }
    }
  }

  // Of a set that the first run put there, the next sends at most rules it lacks.
  lemma SetStaysPut(c: Pass, d: Pass, p: Post, sp: Post)
    requires Sound(c) && Resumes(c, d) && ListsRules(d.world)
    requires PutThere(c, sp) && p in Final(d).log && p.from == sp.from
    ensures p.RulePost? && p.rule.name !in NamesAt(d.sets, sp.id, p.kind)
  {
    hide Preflight, Merges, Creates, At, Entries, NamesAt, ListsRules, OnlyMerged, Idle, Mine, SetsByName, Checked,
         Sound;
    ResumedSound(c, d);
    var s := c.bundle[sp.from];
    if sp.name != s.name {
      BesideStaysIdle(c, d, sp);
      IdleSendsNothing(d, sp.from);
    } else {
      PutThereIsMine(c, d, sp);
      var k := CreatorOfPost(c, sp);
      CreatedName(c.sets, sp.from, s, c.env);
      MineOnlyMerged(d.sets, sp.from, s, d.env);
      OnlyMergedSends(d, p, sp.id);
    }
  }

  // Whatever the target can name by the second run, it sends nothing that landed in
  // the first.
  lemma NothingLandsTwice(c: Pass, d: Pass)
    requires Sound(c) && Resumes(c, d) && ListsRules(d.world)
    ensures forall p, q :: p in Final(d).log && q in Final(c).log && Same(q, p) ==> q.reply != Landed
  {
    hide Sound, Resumes, ListsRules, Final, Same;
    forall p, q | p in Final(d).log && q in Final(c).log && Same(q, p)
      ensures q.reply != Landed
    {
      LandedIsNotSent(c, d, p, q);
    }
  }

  // --- which rules of an earlier import are sent -------------------------------------------

  // For every rule of a set the first run put there: the second sends it if and only
  // if the set went in under its own name, resolves whole by then, and holds no rule
  // of that name. A refused rule that shares its name with one that is there is
  // never sent again.
  lemma RuleIsSentExactly(c: Pass, d: Pass, p: Post, k: RuleKind, r: Rule)
    requires Sound(c) && Resumes(c, d) && PutThere(c, p) && ListsRules(d.world)
    requires r in RulesOf(c.bundle[p.from], k) && !r.isDefault
    ensures (exists q :: q in Final(d).log && RequestFor(q, p.from, p.id, k, r)) <==>
            && p.name == c.bundle[p.from].name && CheckSet(c.bundle[p.from], d.env) == Fine
            && r.name !in NamesAt(d.sets, p.id, k)
  {
    hide Sound, Final, NamesAt, CheckSet, ListsRules, PutThere;
    if r.name !in NamesAt(d.sets, p.id, k) {
      LeftOutRuleIsSentExactly(c, d, p, k, r);
    } else if q :| q in Final(d).log && RequestFor(q, p.from, p.id, k, r) {
      SetStaysPut(c, d, q, p);
    }
  }

  // --- a list that cannot be read -----------------------------------------------------------

  const DEFAULT_SET :=
    Set(DEFAULT, true, "", "enabled", "", None, [], [Rule("Printers", false, "enabled", None, "", [], "")])

  function WorldOf(day: Marker.Day, listable: bool): World {
    World(n => Accept("new"), n => true, (n, k) => listable, map[], false, day, [], [])
  }

  // A rule landed, the next run could not list the rules that are there, and sends
  // it again.
  lemma UnlistedRuleIsSentAgain(day: Marker.Day) returns (c: Pass, d: Pass, p: Post)
    ensures Sound(c) && Resumes(c, d) && d.env == c.env
    ensures p in Final(c).log && p in Final(d).log && p.reply == Landed
  {
    var env := Env({}, {}, {}, {}, {}, {}, map[]);
    var held := Held("d", DEFAULT, "", "enabled", "", None, [], []);
    var r := DEFAULT_SET.authz[0];
    p := RulePost(0, "d", Authorization, r, Landed);
    c := Pass([held], 0, [DEFAULT_SET], env, WorldOf(day, true));
    DefaultIsShapeless();
    assert UniqueIds(c.sets) && UniqueNames(c.sets) && held in c.sets;
    assert DEFAULT in NamesOf(c.sets);
    OneRun(c, held, env, r);
    var after := AddRule([held], "d", Authorization, PostedRule(r, c.world));
    d := c.(sets := after, world := WorldOf(day, false));
    OneRun(d, after[0], env, r);
  }

  lemma DefaultIsShapeless()
    ensures !Shaped(DEFAULT)
  {
    if Shaped(DEFAULT) {
      var base, i :| 1 <= i < 100 && DEFAULT == base + Suffix(i);
      SuffixShape(base, i);
    }
  }

  lemma OneRun(c: Pass, held: Held, env: Env, r: Rule)
    requires r == DEFAULT_SET.authz[0] && c.sets == [held] && held.id == "d" && held.name == DEFAULT
    requires c.bundle == [DEFAULT_SET] && c.asked == 0 && c.env == env
    requires c.world.answers(0) == Accept("new")
    requires !c.world.lists(0, Authorization) || (held.authz == [] && c.world.lists(0, Authorization))
    ensures Final(c).log == [RulePost(0, "d", Authorization, r, Landed)]
    ensures Final(c).sets == AddRule(c.sets, "d", Authorization, PostedRule(r, c.world))
  {
    var w, s := c.world, Start(c.sets, 0);
    assert c.sets[..0] == [] && c.bundle[..0] == [];
    assert SetsByName(c.sets) == map[DEFAULT := held];
    assert DEFAULT_SET.authz[1..] == [];
    assert CheckRule(r, Authorization, env) == Fine;
    assert DEFAULT_SET.authz == [r] + [];
    assert PolicySets.Kept(DEFAULT_SET.authz, Authorization, env) == [r] + PolicySets.Kept([], Authorization, env);
    assert KeptSet(DEFAULT_SET, env) == DEFAULT_SET;
    var e := Entry(0, Skip, DefaultMerged, "", "", "d", DEFAULT_SET);
    assert Checked(c.sets, 0, DEFAULT_SET, env) == e;
    assert Preflight(c.sets, [], env) == [];
    assert ReportOf(c) == [] + [e];
    assert [e][..1] == [e] && [e][..0] == [];
    assert r.name !in Listed(s, w, "d", Authorization);
    OneMerge(s, w, e, r);
  }

  lemma TallyAside(s: Run, t: Run, w: World)
    requires t.sets == s.sets && t.asked == s.asked
    ensures forall id, k :: Listed(t, w, id, k) == Listed(s, w, id, k)
  {
  }

  lemma OneMerge(s: Run, w: World, e: Entry, r: Rule)
    requires r == DEFAULT_SET.authz[0] && e == Entry(0, Skip, DefaultMerged, "", "", "d", DEFAULT_SET)
    requires s == Start(s.sets, 0) && w.answers(0) == Accept("new") && r.name !in Listed(s, w, "d", Authorization)
    ensures Apply(s, w, [e]).log == [RulePost(0, "d", Authorization, r, Landed)]
    ensures Apply(s, w, [e]).sets == AddRule(s.sets, "d", Authorization, PostedRule(r, w))
  {
    hide AddRule, PostedRule, Listed;
    assert [e][..0] == [] && [r][..0] == [] && DEFAULT_SET.authz == [r] && DEFAULT_SET.authn == [];
    var haveN, haveZ := Listed(s, w, "d", Authentication), Listed(s, w, "d", Authorization);
    var t := s.(tally := s.tally.(skipped := s.tally.skipped + 1));
    TallyAside(s, t, w);
    assert Listed(t, w, "d", Authorization) == haveZ && Listed(t, w, "d", Authentication) == haveN;
    assert Apply(s, w, [e]) == Step(s, w, e);
    assert SendRules(t, w, 0, "d", Authentication, [], haveN) == t;
    assert SendRules(t, w, 0, "d", Authorization, [r], haveZ) == SendRule(t, w, 0, "d", Authorization, r);
    assert Step(s, w, e) == SendRule(t, w, 0, "d", Authorization, r);
    assert [] + [RulePost(0, "d", Authorization, r, Landed)] == [RulePost(0, "d", Authorization, r, Landed)];
  }
}
