// What arrives of a bundle's sets and rules, said of the bundle, the log and the
// target alone; in what order it is sent; and what is counted.
module PolicySetContent {
  import opened Objects
  import opened Report
  import opened Conditions
  import opened PolicySets
  import opened PolicySetNames
  import opened PolicySetRuns
  import opened PolicySetTheorems
  import opened PolicySetRetry
  import opened PolicySetArrivals
  import Marker

  // --- a rule and a set as they arrive -------------------------------------------------

  // The bundle's tree but for ids and links; and, of a tree an export left clean,
  // with the target's id at every reference if and only if there is one for each.
  ghost predicate SameTree(there: Option<Json>, bundled: Option<Json>, ids: map<string, string>) {
    && (there.Some? <==> bundled.Some?)
    && (bundled.Some? ==>
          && Clean(there.value) == Clean(bundled.value)
          && (Clean(bundled.value) == bundled.value ==>
                (Grounded(there.value, ids) <==> NamesHaveIds(bundled.value, ids))))
  }

  ghost predicate ArrivedRule(there: Rule, bundled: Rule, w: World) {
    && there.name == bundled.name
    && there.isDefault == bundled.isDefault
    && there.source == bundled.source
    && there.profiles == bundled.profiles
    && there.group == bundled.group
    && there.state == (if w.keepState then bundled.state else "disabled")
    && SameTree(there.condition, bundled.condition, w.conditions)
  }

  ghost predicate ArrivedSet(there: Held, name: string, bundled: Set, w: World) {
    && there.name == name
    && there.service == bundled.service
    && there.state == (if w.keepState then bundled.state else "disabled")
    && there.description == Marker.Tag(bundled.description, w.day)
    && SameTree(there.condition, bundled.condition, w.conditions)
  }

  lemma {:induction false} CleanAfterRewrite(v: Json, ids: map<string, string>)
    ensures Clean(Rewrite(v, ids)) == Clean(v)
    decreases v
  {
    if v.Obj? {
      if Children in v.fields && v.fields[Children].Arr? {
        var es := v.fields[Children].elems;
        forall i | 0 <= i < |es|
          ensures Clean(Rewrite(es[i], ids)) == Clean(es[i])
        {
          CleanAfterRewrite(es[i], ids);
        }
        assert Clean(Rewrite(v, ids)).fields[Children].elems == Clean(v).fields[Children].elems;
      }
      assert Clean(Rewrite(v, ids)).fields == Clean(v).fields;
    }
  }

  lemma SentTree(c: Option<Json>, w: World)
    ensures SameTree(RewriteCondition(c, w), c, w.conditions)
  {
    if c.Some? {
      CleanAfterRewrite(c.value, w.conditions);
      RewriteGrounds(c.value, w.conditions);
    }
  }

  lemma SentRule(r: Rule, w: World)
    ensures ArrivedRule(PostedRule(r, w), r, w)
  {
    hide SameTree, RewriteCondition;
    SentTree(r.condition, w);
  }

  lemma SentSet(s: Set, name: string, id: string, w: World)
    ensures ArrivedSet(NewSet(s, name, id, w), name, s, w) && NewSet(s, name, id, w).id == id
    ensures NewSet(s, name, id, w).authn == w.factoryAuthn && NewSet(s, name, id, w).authz == w.factoryAuthz
  {
    hide SameTree, RewriteCondition, Marker.Tag;
    SentTree(s.condition, w);
  }

  // --- everything that landed is there ---------------------------------------------------

  ghost predicate RuleThere(sets: seq<Held>, id: string, k: RuleKind, r: Rule, w: World) {
    exists i, j :: 0 <= i < |sets| && sets[i].id == id && 0 <= j < |Rules(sets[i], k)|
      && ArrivedRule(Rules(sets[i], k)[j], r, w)
  }

  ghost predicate SetThere(sets: seq<Held>, id: string, name: string, s: Set, w: World) {
    exists i :: 0 <= i < |sets| && sets[i].id == id && ArrivedSet(sets[i], name, s, w)
  }

  ghost predicate Arrived(sets: seq<Held>, p: Post, bundle: seq<Set>, w: World) {
    p.reply == Landed ==>
      match p
      case SetPost(from, name, id, _, _) => from < |bundle| && SetThere(sets, id, name, bundle[from], w)
      case RulePost(_, id, k, r, _) => RuleThere(sets, id, k, r, w)
  }

  ghost predicate AllArrived(s: Run, bundle: seq<Set>, w: World) {
    forall p :: p in s.log ==> Arrived(s.sets, p, bundle, w)
  }

  lemma RuleThereKept(a: seq<Held>, b: seq<Held>, id: string, k: RuleKind, r: Rule, w: World)
    requires Grown(a, b) && RuleThere(a, id, k, r, w)
    ensures RuleThere(b, id, k, r, w)
  {
    hide ArrivedRule, Mine;
    var i, j :| 0 <= i < |a| && a[i].id == id && 0 <= j < |Rules(a[i], k)| && ArrivedRule(Rules(a[i], k)[j], r, w);
    assert Extends(a[i], b[i]);
    assert Rules(b[i], k)[j] == Rules(a[i], k)[j];
  }

  lemma SetThereKept(a: seq<Held>, b: seq<Held>, id: string, name: string, s: Set, w: World)
    requires Grown(a, b) && SetThere(a, id, name, s, w)
    ensures SetThere(b, id, name, s, w)
  {
    hide SameTree, Mine, Marker.Tag;
    var i :| 0 <= i < |a| && a[i].id == id && ArrivedSet(a[i], name, s, w);
    assert Extends(a[i], b[i]);
    assert ArrivedSet(b[i], name, s, w);
  }

  lemma ArrivedKept(a: seq<Held>, b: seq<Held>, p: Post, bundle: seq<Set>, w: World)
    requires Grown(a, b) && Arrived(a, p, bundle, w)
    ensures Arrived(b, p, bundle, w)
  {
    hide Grown, RuleThere, SetThere;
    if p.reply == Landed {
      match p
      case SetPost(from, name, id, _, _) => SetThereKept(a, b, id, name, bundle[from], w);
      case RulePost(_, id, k, r, _) => RuleThereKept(a, b, id, k, r, w);
    }
  }

  lemma OneMore(s: Run, t: Run, p: Post, bundle: seq<Set>, w: World)
    requires AllArrived(s, bundle, w) && Grown(s.sets, t.sets) && t.log == s.log + [p]
    requires Arrived(t.sets, p, bundle, w)
    ensures AllArrived(t, bundle, w)
  {
    hide Grown, Arrived;
    forall q | q in t.log
      ensures Arrived(t.sets, q, bundle, w)
    {
      if q in s.log { ArrivedKept(s.sets, t.sets, q, bundle, w); }
    }
  }

  lemma AddedIsThere(sets: seq<Held>, id: string, k: RuleKind, r: Rule, w: World)
    requires id in Ids(sets)
    ensures RuleThere(AddRule(sets, id, k, PostedRule(r, w)), id, k, r, w)
  {
    hide PostedRule, ArrivedRule;
    SentRule(r, w);
    var t := AddRule(sets, id, k, PostedRule(r, w));
    var h :| h in sets && h.id == id;
    var i :| 0 <= i < |sets| && sets[i] == h;
    assert t[i] == AddTo(h, k, PostedRule(r, w));
    var j := |Rules(h, k)|;
    assert Rules(t[i], k)[j] == PostedRule(r, w);
  }

  lemma RuleArrives(s: Run, w: World, bundle: seq<Set>, from: nat, id: string, k: RuleKind, r: Rule,
                    have: set<string>)
    requires AllArrived(s, bundle, w) && id in Ids(s.sets)
    ensures AllArrived(StepRule(s, w, from, id, k, r, have), bundle, w)
    ensures Ids(StepRule(s, w, from, id, k, r, have).sets) == Ids(s.sets)
  {
    hide AddRule, PostedRule, Grown, RuleThere, Ids, AllArrived, UniqueIds, UniqueNames, NamesOf;
    if r.name in have || r.isDefault {
      TallyIgnored(s, StepRule(s, w, from, id, k, r, have), bundle, w);
    } else {
      var t := SendRule(s, w, from, id, k, r);
      AddRuleGrows(s.sets, id, k, PostedRule(r, w));
      AddedIsThere(s.sets, id, k, r, w);
      GrownRefl(s.sets);
      OneMore(s, t, RulePost(from, id, k, r, RuleReply(w.answers(s.asked))), bundle, w);
    }
  }

  lemma TallyIgnored(s: Run, t: Run, bundle: seq<Set>, w: World)
    requires AllArrived(s, bundle, w) && t.sets == s.sets && t.log == s.log
    ensures AllArrived(t, bundle, w)
  {
    hide Arrived;
  }

  lemma {:induction false} RulesArrive(s: Run, w: World, bundle: seq<Set>, from: nat, id: string, k: RuleKind,
                                       rs: seq<Rule>, have: set<string>)
    requires AllArrived(s, bundle, w) && id in Ids(s.sets)
    ensures AllArrived(SendRules(s, w, from, id, k, rs, have), bundle, w)
    ensures Ids(SendRules(s, w, from, id, k, rs, have).sets) == Ids(s.sets)
  {
    hide StepRule, Ids, AllArrived;
    if rs != [] {
      var n := |rs| - 1;
      RulesArrive(s, w, bundle, from, id, k, rs[..n], have);
      RuleArrives(SendRules(s, w, from, id, k, rs[..n], have), w, bundle, from, id, k, rs[n], have);
    }
  }

  lemma FillArrives(s: Run, w: World, bundle: seq<Set>, from: nat, id: string, obj: Set, haveN: set<string>,
                    haveZ: set<string>)
    requires AllArrived(s, bundle, w) && id in Ids(s.sets)
    ensures AllArrived(Fill(s, w, from, id, obj, haveN, haveZ), bundle, w)
  {
    hide SendRules, Ids, AllArrived;
    RulesArrive(s, w, bundle, from, id, Authentication, obj.authn, haveN);
    RulesArrive(SendRules(s, w, from, id, Authentication, obj.authn, haveN), w, bundle, from, id, Authorization,
                obj.authz, haveZ);
  }

  lemma NewIsThere(sets: seq<Held>, s: Set, name: string, id: string, w: World)
    ensures SetThere(sets + [NewSet(s, name, id, w)], id, name, s, w)
  {
    hide NewSet, ArrivedSet;
    SentSet(s, name, id, w);
    var t := sets + [NewSet(s, name, id, w)];
    assert t[|sets|] == NewSet(s, name, id, w);
  }

  lemma SetArrives(s: Run, w: World, bundle: seq<Set>, e: Entry)
    requires AllArrived(s, bundle, w) && Creates(e) && Target(e) !in NamesOf(s.sets)
    requires e.from < |bundle| && e.obj == bundle[e.from]
    ensures AllArrived(CreateSet(s, w, e), bundle, w)
  {
    hide Fill, NewSet, FirstNamed, Grown, SetThere, AllArrived, UniqueIds, UniqueNames, NamesOf, Ids, Mine;
    var name := Target(e);
    var a := w.answers(s.asked);
    var reply := SetReply(s.sets, a);
    var p := SetPost(e.from, name, if reply == Landed then a.id else "", reply, w.relists(s.asked));
    GrownRefl(s.sets);
    if reply == Landed {
      var h := NewSet(e.obj, name, a.id, w);
      NewSetFields(e.obj, name, a.id, w);
      NewSetIsMine(e.obj, name, a.id, w);
      SetAppended(s.sets, h);
      FirstNamedNew(s.sets, h);
      NewIsThere(s.sets, e.obj, name, a.id, w);
      var u := Run(s.sets + [h], s.asked + 1, s.log + [p], s.tally.(created := s.tally.created + 1));
      OneMore(s, u, p, bundle, w);
      if p.read {
        FillArrives(u, w, bundle, e.from, a.id, e.obj, {}, {});
      } else {
        TallyIgnored(u, CreateSet(s, w, e), bundle, w);
      }
    } else {
      OneMore(s, CreateSet(s, w, e), p, bundle, w);
    }
  }

  lemma StepArrives(s: Run, w: World, bundle: seq<Set>, e: Entry)
    requires AllArrived(s, bundle, w) && Ready(s, e)
    requires Creates(e) ==> e.from < |bundle| && e.obj == bundle[e.from]
    ensures AllArrived(Step(s, w, e), bundle, w)
  {
    hide Fill, CreateSet, NamesAt, AllArrived, Target, NamesOf, Ids;
    if Creates(e) {
      SetArrives(s, w, bundle, e);
    } else if e.action == Create {
      assert Merges(e, e.mergeId);
      FillArrives(s, w, bundle, e.from, e.mergeId, e.obj,
                  Listed(s, w, e.mergeId, Authentication), Listed(s, w, e.mergeId, Authorization));
    } else if e.action == Skip && e.obj.isDefault && e.defaultId != "" {
      assert Merges(e, e.defaultId);
      var t := s.(tally := s.tally.(skipped := s.tally.skipped + 1));
      TallyIgnored(s, t, bundle, w);
      FillArrives(t, w, bundle, e.from, e.defaultId, e.obj,
                  Listed(t, w, e.defaultId, Authentication), Listed(t, w, e.defaultId, Authorization));
    } else {
      TallyIgnored(s, Step(s, w, e), bundle, w);
    }
  }

  lemma {:induction false} ArrivedBy(c: Pass, n: nat)
    requires Sound(c) && n <= |ReportOf(c)|
    ensures AllArrived(At(c, n), c.bundle, c.world)
  {
    hide Preflight, Step, Creates, CheckSet, At, Arrived, Ready, Keeps, Done, Holds;
    StartOf(c);
    if n > 0 {
      ArrivedBy(c, n - 1);
      NextState(c, n - 1);
      CreatesOwn(c, n - 1);
      Reached(c, n - 1);
      StepArrives(At(c, n - 1), c.world, c.bundle, ReportOf(c)[n - 1]);
    }
  }

  // Over whole runs: a rule request that landed leaves in the set it was sent to a
  // rule with everything the bundle's rule has.
  lemma LandedRuleIsThere(c: Pass, p: Post) returns (h: Held, r: Rule)
    requires Sound(c) && p in Final(c).log && p.RulePost? && p.reply == Landed
    ensures h in Final(c).sets && h.id == p.id && r in Rules(h, p.kind) && ArrivedRule(r, p.rule, c.world)
  {
    hide Preflight, At, ArrivedRule;
    ArrivedBy(c, |ReportOf(c)|);
    var sets := Final(c).sets;
    assert Arrived(sets, p, c.bundle, c.world);
    var i, j :| 0 <= i < |sets| && sets[i].id == p.id && 0 <= j < |Rules(sets[i], p.kind)|
                && ArrivedRule(Rules(sets[i], p.kind)[j], p.rule, c.world);
    h, r := sets[i], Rules(sets[i], p.kind)[j];
  }

  // And a set request that landed, a set with everything the bundle's set has.
  lemma LandedSetIsThere(c: Pass, p: Post) returns (h: Held)
    requires Sound(c) && p in Final(c).log && p.SetPost? && p.reply == Landed
    ensures p.from < |c.bundle|
    ensures h in Final(c).sets && h.id == p.id && ArrivedSet(h, p.name, c.bundle[p.from], c.world)
  {
    hide Preflight, At, ArrivedSet;
    ArrivedBy(c, |ReportOf(c)|);
    var sets := Final(c).sets;
    assert Arrived(sets, p, c.bundle, c.world);
    var i :| 0 <= i < |sets| && sets[i].id == p.id && ArrivedSet(sets[i], p.name, c.bundle[p.from], c.world);
    h := sets[i];
  }
}
