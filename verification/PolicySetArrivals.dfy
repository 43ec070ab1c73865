// What a run puts on the target: exactly the requests that landed, nothing that
// names what the target will not have, and nothing that is switched on.
module PolicySetArrivals {
  import opened Objects
  import opened Report
  import opened Conditions
  import opened PolicySets
  import opened PolicySetNames
  import opened PolicySetRuns
  import opened PolicySetTheorems
  import opened PolicySetRetry

  // --- the log accounts for the target ------------------------------------------------

  // The target after one logged request.
  function ReplayOne(sets: seq<Held>, p: Post, bundle: seq<Set>, w: World): seq<Held> {
    if p.reply != Landed then sets
    else match p
      case SetPost(from, name, id, _, _) =>
        if from < |bundle| then sets + [NewSet(bundle[from], name, id, w)] else sets
      case RulePost(_, id, k, r, _) => AddRule(sets, id, k, PostedRule(r, w))
  }

  function Replay(sets: seq<Held>, log: seq<Post>, bundle: seq<Set>, w: World): seq<Held> {
    if log == [] then sets
    else ReplayOne(Replay(sets, log[..|log| - 1], bundle, w), log[|log| - 1], bundle, w)
  }

  lemma ReplayNext(sets: seq<Held>, log: seq<Post>, p: Post, bundle: seq<Set>, w: World)
    ensures Replay(sets, log + [p], bundle, w) == ReplayOne(Replay(sets, log, bundle, w), p, bundle, w)
  {
    assert (log + [p])[..|log|] == log;
  }

  ghost predicate Accounted(sets: seq<Held>, s: Run, bundle: seq<Set>, w: World) {
    s.sets == Replay(sets, s.log, bundle, w)
  }

  lemma {:induction false} RulesAccounted(sets: seq<Held>, bundle: seq<Set>, s: Run, w: World, from: nat, id: string,
                                          k: RuleKind, rs: seq<Rule>, have: set<string>)
    requires Accounted(sets, s, bundle, w)
    ensures Accounted(sets, SendRules(s, w, from, id, k, rs, have), bundle, w)
  {
    hide AddRule, Replay, PostedRule;
    if rs != [] {
      var n := |rs| - 1;
      var t := SendRules(s, w, from, id, k, rs[..n], have);
      RulesAccounted(sets, bundle, s, w, from, id, k, rs[..n], have);
      ReplayNext(sets, t.log, RulePost(from, id, k, rs[n], RuleReply(w.answers(t.asked))), bundle, w);
    }
  }

  lemma FillAccounted(sets: seq<Held>, bundle: seq<Set>, s: Run, w: World, from: nat, id: string, obj: Set,
                      haveN: set<string>, haveZ: set<string>)
    requires Accounted(sets, s, bundle, w)
    ensures Accounted(sets, Fill(s, w, from, id, obj, haveN, haveZ), bundle, w)
  {
    hide Accounted, SendRules;
    var t := SendRules(s, w, from, id, Authentication, obj.authn, haveN);
    RulesAccounted(sets, bundle, s, w, from, id, Authentication, obj.authn, haveN);
    RulesAccounted(sets, bundle, t, w, from, id, Authorization, obj.authz, haveZ);
  }

  lemma CreateAccounted(sets: seq<Held>, bundle: seq<Set>, s: Run, w: World, e: Entry)
    requires Accounted(sets, s, bundle, w) && e.from < |bundle| && e.obj == bundle[e.from]
    ensures Accounted(sets, CreateSet(s, w, e), bundle, w)
  {
    hide Replay, Fill, NewSet, FirstNamed, Ids;
    var name := if e.targetName != "" then e.targetName else e.obj.name;
    var a := w.answers(s.asked);
    var reply := SetReply(s.sets, a);
    var id := if reply == Landed then a.id else "";
    var p := SetPost(e.from, name, id, reply, w.relists(s.asked));
    ReplayNext(sets, s.log, p, bundle, w);
    if reply == Landed && p.read {
      var after := s.sets + [NewSet(e.obj, name, id, w)];
      var u := Run(after, s.asked + 1, s.log + [p], s.tally.(created := s.tally.created + 1));
      assert Accounted(sets, u, bundle, w);
      FillAccounted(sets, bundle, u, w, e.from, FirstNamed(after, name), e.obj, {}, {});
    }
  }

  lemma StepAccounted(sets: seq<Held>, bundle: seq<Set>, s: Run, w: World, e: Entry)
    requires Accounted(sets, s, bundle, w)
    requires Creates(e) ==> e.from < |bundle| && e.obj == bundle[e.from]
    requires e.action == Create && e.mergeId == "" ==> !e.obj.isDefault
    ensures Accounted(sets, Step(s, w, e), bundle, w)
  {
    hide Replay, Fill, CreateSet, NamesAt;
    if Creates(e) {
      CreateAccounted(sets, bundle, s, w, e);
    } else if e.action == Create {
      FillAccounted(sets, bundle, s, w, e.from, e.mergeId, e.obj,
                    Listed(s, w, e.mergeId, Authentication), Listed(s, w, e.mergeId, Authorization));
    } else if e.action == Skip && e.obj.isDefault && e.defaultId != "" {
      var t := s.(tally := s.tally.(skipped := s.tally.skipped + 1));
      FillAccounted(sets, bundle, t, w, e.from, e.defaultId, e.obj,
                    Listed(t, w, e.defaultId, Authentication), Listed(t, w, e.defaultId, Authorization));
    }
  }

  lemma CreatesOwn(c: Pass, k: nat)
    requires Sound(c) && k < |ReportOf(c)|
    ensures var e := ReportOf(c)[k];
            Creates(e) ==> e.from < |c.bundle| && e.obj == c.bundle[e.from] && CheckSet(e.obj, c.env) == Fine
  {
    hide Preflight, Checked, CheckSet, Creates, Target, Entries;
    var e := ReportOf(c)[k];
    ReportEntries(c.sets, c.bundle, c.env);
    assert EntryOf(c.sets, c.bundle, c.env, e);
    EntriesFrom(c.sets, e.from, c.bundle[e.from], c.env);
    if Creates(e) { CreatedName(c.sets, e.from, c.bundle[e.from], c.env); }
  }

  // After any run, the target is what it was with the requests that landed added
  // in order: no request is lost, and nothing arrives without one.
  lemma {:induction false} LogAccountsForTarget(c: Pass, n: nat)
    requires Sound(c) && n <= |ReportOf(c)|
    ensures At(c, n).sets == Replay(c.sets, At(c, n).log, c.bundle, c.world)
  {
    hide Preflight, Step, Replay, Creates, CheckSet, At;
    StartOf(c);
    if n == 0 {
      ReplayNothing(c.sets, c.bundle, c.world);
    } else {
      LogAccountsForTarget(c, n - 1);
      NextState(c, n - 1);
      CreatesOwn(c, n - 1);
      Reached(c, n - 1);
      StepAccounted(c.sets, c.bundle, At(c, n - 1), c.world, ReportOf(c)[n - 1]);
    }
  }

  lemma ReplayNothing(sets: seq<Held>, bundle: seq<Set>, w: World)
    ensures Replay(sets, [], bundle, w) == sets
  {
  }

  // --- nothing unresolved is sent ---------------------------------------------------------

  lemma {:induction false} KeptAreFine(rs: seq<Rule>, k: RuleKind, env: Env)
    ensures forall r :: r in PolicySets.Kept(rs, k, env) ==> CheckRule(r, k, env) == Fine && r in rs
  {
    hide CheckRule;
    if rs != [] { KeptAreFine(rs[1..], k, env); }
  }

  lemma MergedAreFine(sets: seq<Held>, i: nat, s: Set, env: Env, e: Entry, id: string, r: Rule, k: RuleKind)
    requires e in Entries(sets, i, s, env) && Merges(e, id) && r in RulesOf(e.obj, k)
    ensures CheckRule(r, k, env) == Fine && r in RulesOf(s, k)
  {
    hide CheckRule, CheckSet, Entries, Merges, Mine, SetsByName, PolicySets.Kept;
    MergeEntry(sets, i, s, env, e, id);
    CheckersAgree(s, env);
    KeptAreFine(s.authn, Authentication, env);
    KeptAreFine(s.authz, Authorization, env);
    if !s.isDefault {
      var j :| 0 <= j < |RulesOf(s, k)| && RulesOf(s, k)[j] == r;
    }
  }

  // What a request is made of resolves, whole: a set with one unresolved name at
  // any depth, in itself or in any of its rules, is never sent, and neither is a
  // rule with one; no default rule is ever sent.
  ghost predicate Resolvable(p: Post, bundle: seq<Set>, env: Env) {
    && p.from < |bundle|
    && (p.SetPost? ==> CheckSet(bundle[p.from], env) == Fine)
    && (p.RulePost? ==>
         CheckRule(p.rule, p.kind, env) == Fine && !p.rule.isDefault && p.rule in RulesOf(bundle[p.from], p.kind))
  }

  lemma CreatedPartResolves(c: Pass, k: nat, p: Post)
    requires Sound(c) && k < |ReportOf(c)| && Creates(ReportOf(c)[k])
    requires |At(c, k).log| <= |At(c, k + 1).log| && p in Part(c, k)
    ensures Resolvable(p, c.bundle, c.env)
  {
    hide Preflight, Holds, Ready, Merges, Grown, Creates, Keeps, Filled, At, NamesAt, Target, CheckSet, CheckRule,
         Tried;
    Reached(c, k);
    CreatesOwn(c, k);
    var s, t, e := At(c, k), At(c, k + 1), ReportOf(c)[k];
    assert SetCreated(s, t, e);
    CheckersAgree(e.obj, c.env);
    var first := t.log[|s.log|];
    assert t.log[|s.log|..] == [first] + t.log[|s.log| + 1..];
    if p in t.log[|s.log| + 1..] {
      assert p.RulePost?;
      if p.kind == Authentication {} else {}
      var j :| 0 <= j < |RulesOf(e.obj, p.kind)| && RulesOf(e.obj, p.kind)[j] == p.rule;
    }
  }

  lemma NothingUnresolvedIsSent(c: Pass, p: Post)
    requires Sound(c) && p in Final(c).log
    ensures Resolvable(p, c.bundle, c.env)
  {
    hide Preflight, Holds, Ready, Merges, Grown, Creates, Keeps, Filled, At, NamesAt, Target, CheckSet, CheckRule,
         Tried, Entries;
    var k := PostOfEntry(c, |ReportOf(c)|, p);
    var id := PartFrom(c, k, p);
    var e := ReportOf(c)[k];
    if Creates(e) {
      CreatedPartResolves(c, k, p);
    } else {
      MergeSendsMissing(c, k, id, p);
      ReportEntries(c.sets, c.bundle, c.env);
      assert EntryOf(c.sets, c.bundle, c.env, e);
      MergedAreFine(c.sets, e.from, c.bundle[e.from], c.env, e, id, p.rule, p.kind);
    }
  }

  // A condition as an export leaves it: cleaned.
  ghost predicate Portable(c: Option<Json>) { c.Some? ==> Clean(c.value) == c.value }

  ghost predicate PortableBundle(bundle: seq<Set>) {
    forall i :: 0 <= i < |bundle| ==>
      && Portable(bundle[i].condition)
      && (forall r :: r in bundle[i].authn || r in bundle[i].authz ==> Portable(r.condition))
  }

  // The tree of a request once it is sent.
  function TreeOf(p: Post, bundle: seq<Set>, w: World): Option<Json>
    requires p.from < |bundle|
  {
    if p.SetPost? then RewriteCondition(bundle[p.from].condition, w) else PostedRule(p.rule, w).condition
  }

  // The tree a request is made of, as the bundle has it.
  function SourceOf(p: Post, bundle: seq<Set>): Option<Json>
    requires p.from < |bundle|
  {
    if p.SetPost? then bundle[p.from].condition else p.rule.condition
  }

  // Every name of the tree, at any depth, has an id on the target by now.
  ghost predicate AllNamed(c: Option<Json>, w: World) { c.Some? ==> NamesHaveIds(c.value, w.conditions) }

  lemma GroundedExactly(c: Option<Json>, w: World)
    requires Portable(c)
    ensures RewriteCondition(c, w).Some? <==> c.Some?
    ensures c.Some? ==> (Grounded(RewriteCondition(c, w).value, w.conditions) <==> AllNamed(c, w))
  {
    if c.Some? { RewriteGrounds(c.value, w.conditions); }
  }

  lemma FineIsNamed(c: Option<Json>, env: Env, w: World)
    requires CheckCondition(c, env) == Fine
    requires forall n :: n in env.conditions ==> n in w.conditions && w.conditions[n] != ""
    ensures AllNamed(c, w)
  {
    if c.Some? { CheckedNamesHaveIds(c.value, env, w.conditions); }
  }

  lemma RuleConditionFine(r: Rule, k: RuleKind, env: Env)
    requires CheckRule(r, k, env) == Fine
    ensures CheckCondition(r.condition, env) == Fine
  {
  }

  // Over whole runs: a tree that is sent, of a set or of a rule, carries at every
  // depth the target's ids and nothing of the source's if and only if every name in
  // it has an id by then. Pre-flight counts on conditions the run has yet to create,
  // and what it cleared is sent whether they arrived or not.
  lemma SentTreesGroundedExactly(c: Pass, p: Post)
    requires Sound(c) && p in Final(c).log && PortableBundle(c.bundle)
    ensures p.from < |c.bundle|
    ensures var tree := TreeOf(p, c.bundle, c.world);
            && (tree.Some? <==> SourceOf(p, c.bundle).Some?)
            && (tree.Some? ==> (Grounded(tree.value, c.world.conditions) <==> AllNamed(SourceOf(p, c.bundle), c.world)))
  {
    NothingUnresolvedIsSent(c, p);
    hide Sound, Final, Portable, RewriteCondition, CheckRule, CheckSet, AllNamed;
    GroundedExactly(SourceOf(p, c.bundle), c.world);
  }

  // So no sent tree dangles when every condition pre-flight counted on has an id.
  lemma SentTreesAreGrounded(c: Pass, p: Post)
    requires Sound(c) && p in Final(c).log && PortableBundle(c.bundle)
    requires forall n :: n in c.env.conditions ==> n in c.world.conditions && c.world.conditions[n] != ""
    ensures p.from < |c.bundle|
    ensures TreeOf(p, c.bundle, c.world).Some? ==> Grounded(TreeOf(p, c.bundle, c.world).value, c.world.conditions)
  {
    hide Sound, Final, CheckCondition, CheckRule, CheckSet, Portable, RewriteCondition, PortableBundle, AllNamed;
    NothingUnresolvedIsSent(c, p);
    SentTreesGroundedExactly(c, p);
    if p.SetPost? {
      CheckersAgree(c.bundle[p.from], c.env);
    } else {
      RuleConditionFine(p.rule, p.kind, c.env);
    }
    FineIsNamed(SourceOf(p, c.bundle), c.env, c.world);
  }

  // --- nothing arrives switched on ------------------------------------------------------------

  ghost predicate OffFrom(rs: seq<Rule>, n: nat) {
    n <= |rs| && forall j :: n <= j < |rs| ==> rs[j].state == "disabled"
  }

  // Past what the target had, and past the rules it gives a new set itself,
  // everything is off.
  ghost predicate Quiet(before: seq<Held>, after: seq<Held>, w: World) {
    && |before| <= |after|
    && (forall i :: 0 <= i < |before| ==>
          OffFrom(after[i].authn, |before[i].authn|) && OffFrom(after[i].authz, |before[i].authz|))
    && (forall i :: |before| <= i < |after| ==>
          && after[i].state == "disabled"
          && OffFrom(after[i].authn, |w.factoryAuthn|) && OffFrom(after[i].authz, |w.factoryAuthz|))
  }

  lemma ReplayOneQuiet(before: seq<Held>, sets: seq<Held>, p: Post, bundle: seq<Set>, w: World)
    requires !w.keepState && Quiet(before, sets, w)
    ensures Quiet(before, ReplayOne(sets, p, bundle, w), w)
  {
  }

  lemma {:induction false} ReplayQuiet(sets: seq<Held>, log: seq<Post>, bundle: seq<Set>, w: World)
    requires !w.keepState
    ensures Quiet(sets, Replay(sets, log, bundle, w), w)
  {
    hide ReplayOne, Quiet;
    if log == [] {
      QuietAtStart(sets, w);
    } else {
      ReplayQuiet(sets, log[..|log| - 1], bundle, w);
      ReplayOneQuiet(sets, Replay(sets, log[..|log| - 1], bundle, w), log[|log| - 1], bundle, w);
    }
  }

  lemma QuietAtStart(sets: seq<Held>, w: World)
    ensures Quiet(sets, sets, w)
  {
  }

  // Unless the operator keeps the source's states, no set and no rule arrives
  // enabled; and what the target had is there as it was, in order.
  lemma NothingArrivesEnabled(c: Pass)
    requires Sound(c) && !c.world.keepState
    ensures Quiet(c.sets, Final(c).sets, c.world) && Grown(c.sets, Final(c).sets)
  {
    hide Preflight, At, Quiet, Grown;
    LogAccountsForTarget(c, |ReportOf(c)|);
    ReplayQuiet(c.sets, Final(c).log, c.bundle, c.world);
    Reached(c, |ReportOf(c)|);
  }
}
