// What a run of apply does to a target's policy sets, whatever the target
// answers: it only adds, and its log says exactly what was added and what was
// tried.
module PolicySetRuns {
  import opened Objects
  import opened Report
  import opened Conditions
  import opened PolicySets
  import opened PolicySetNames
  import Marker

  // --- growth -----------------------------------------------------------------------

  // The same set with rules added after its own.
  ghost predicate Extends(h: Held, g: Held) {
    && g.(authn := h.authn, authz := h.authz) == h
    && h.authn <= g.authn && h.authz <= g.authz
  }

  ghost predicate UniqueIds(sets: seq<Held>) {
    && (forall i :: 0 <= i < |sets| ==> sets[i].id != "")
    && (forall i, j :: 0 <= i < j < |sets| ==> sets[i].id != sets[j].id)
  }

  ghost predicate UniqueNames(sets: seq<Held>) {
    forall i, j :: 0 <= i < j < |sets| ==> sets[i].name != sets[j].name
  }

  // b is a with sets of this tool's own added after it, and rules added after
  // each set's own. What was there is there, unchanged and in order.
  ghost predicate Grown(a: seq<Held>, b: seq<Held>) {
    && |a| <= |b|
    && (forall i :: 0 <= i < |a| ==> Extends(a[i], b[i]))
    && (forall i :: |a| <= i < |b| ==> Mine(b[i]))
  }

  lemma GrownTrans(a: seq<Held>, b: seq<Held>, c: seq<Held>)
    requires Grown(a, b) && Grown(b, c)
    ensures Grown(a, c)
  {
    hide Mine;
    forall i | |a| <= i < |c|
      ensures Mine(c[i])
    {
      if i < |b| { assert Extends(b[i], c[i]); MineKept(b[i], c[i]); }
    }
    forall i | 0 <= i < |a|
      ensures Extends(a[i], c[i])
    {
      assert Extends(a[i], b[i]) && Extends(b[i], c[i]);
    }
  }

  lemma MineKept(h: Held, g: Held)
    requires Extends(h, g)
    ensures Mine(g) == Mine(h) && g.id == h.id && g.name == h.name
  {
  }

  lemma GrownNames(a: seq<Held>, b: seq<Held>, id: string, k: RuleKind)
    requires Grown(a, b)
    ensures NamesAt(a, id, k) <= NamesAt(b, id, k)
  {
    forall h, r | h in a && h.id == id && r in Rules(h, k)
      ensures r.name in NamesAt(b, id, k)
    {
      var i :| 0 <= i < |a| && a[i] == h;
      assert Extends(a[i], b[i]) && b[i] in b;
      var j :| 0 <= j < |Rules(h, k)| && Rules(h, k)[j] == r;
      assert Rules(b[i], k)[j] == r;
    }
  }

  // --- one rule -----------------------------------------------------------------------

  lemma AddRuleGrows(sets: seq<Held>, id: string, k: RuleKind, r: Rule)
    ensures var t := AddRule(sets, id, k, r);
            && Grown(sets, t) && |t| == |sets|
            && (UniqueIds(sets) ==> UniqueIds(t))
            && (UniqueNames(sets) ==> UniqueNames(t))
            && Ids(t) == Ids(sets) && NamesOf(t) == NamesOf(sets)
  {
    hide Mine;
    var t := AddRule(sets, id, k, r);
    assert forall i :: 0 <= i < |sets| ==> Extends(sets[i], t[i]);
    SameIds(sets, t);
  }

  lemma SameIds(a: seq<Held>, b: seq<Held>)
    requires |a| == |b| && forall i :: 0 <= i < |a| ==> Extends(a[i], b[i])
    ensures Ids(b) == Ids(a) && NamesOf(b) == NamesOf(a)
  {
    hide Extends;
    forall h | h in a
      ensures h.id in Ids(b) && h.name in NamesOf(b)
    {
      var i :| 0 <= i < |a| && a[i] == h;
      MineKept(a[i], b[i]);
      assert b[i] in b;
    }
    forall h | h in b
      ensures h.id in Ids(a) && h.name in NamesOf(a)
    {
      var i :| 0 <= i < |b| && b[i] == h;
      MineKept(a[i], b[i]);
      assert a[i] in a;
    }
  }

  lemma AddRuleAdds(sets: seq<Held>, id: string, k: RuleKind, r: Rule)
    requires id in Ids(sets)
    ensures r.name in NamesAt(AddRule(sets, id, k, r), id, k)
  {
    var t := AddRule(sets, id, k, r);
    var h :| h in sets && h.id == id;
    var i :| 0 <= i < |sets| && sets[i] == h;
    assert t[i] == AddTo(h, k, r) && t[i] in t;
    assert r in Rules(t[i], k);
  }

  // --- the rules sent to one set --------------------------------------------------------

  function RulesOf(obj: Set, k: RuleKind): seq<Rule> {
    if k == Authentication then obj.authn else obj.authz
  }

  // What one stretch of the log says: rules of these lists, none of them default
  // or already there, each sent to one set; every rule not already there was
  // tried; and what landed is there now.
  ghost predicate Tried(seg: seq<Post>, from: nat, id: string, k: RuleKind, rs: seq<Rule>, have: set<string>) {
    forall r :: r in rs && !r.isDefault && r.name !in have ==>
      exists p :: p in seg && p.RulePost? && p.from == from && p.id == id && p.kind == k && p.rule == r
  }

  ghost predicate Sent(seg: seq<Post>, from: nat, id: string, k: RuleKind, rs: seq<Rule>, have: set<string>,
                       after: seq<Held>) {
    forall p :: p in seg && p.RulePost? && p.kind == k ==>
      && p.from == from && p.id == id && p.rule in rs && !p.rule.isDefault && p.rule.name !in have
      && (p.reply == Landed ==> p.rule.name in NamesAt(after, id, k))
  }

  ghost predicate OnlyRules(seg: seq<Post>, k: RuleKind) {
    forall p :: p in seg ==> p.RulePost? && p.kind == k
  }

  // The state after some rules were sent.
  ghost predicate RulesDone(s: Run, t: Run, from: nat, id: string, k: RuleKind, rs: seq<Rule>, have: set<string>) {
    && s.log <= t.log
    && Grown(s.sets, t.sets) && |t.sets| == |s.sets|
    && (UniqueIds(s.sets) ==> UniqueIds(t.sets)) && (UniqueNames(s.sets) ==> UniqueNames(t.sets))
    && Ids(t.sets) == Ids(s.sets) && NamesOf(t.sets) == NamesOf(s.sets)
    && OnlyRules(t.log[|s.log|..], k)
    && Tried(t.log[|s.log|..], from, id, k, rs, have)
    && Sent(t.log[|s.log|..], from, id, k, rs, have, t.sets)
  }

  lemma GrownRefl(a: seq<Held>)
    ensures Grown(a, a)
  {
  }

  lemma SentLater(seg: seq<Post>, from: nat, id: string, k: RuleKind, rs: seq<Rule>, have: set<string>,
                  more: seq<Rule>, a: seq<Held>, b: seq<Held>)
    requires Sent(seg, from, id, k, rs, have, a) && Grown(a, b) && forall r :: r in rs ==> r in more
    ensures Sent(seg, from, id, k, more, have, b)
  {
    GrownNames(a, b, id, k);
  }

  lemma StepRuleDone(s: Run, w: World, from: nat, id: string, k: RuleKind, r: Rule, have: set<string>)
    requires id in Ids(s.sets)
    ensures RulesDone(s, StepRule(s, w, from, id, k, r, have), from, id, k, [r], have)
  {
    hide AddRule, Grown, UniqueIds, UniqueNames, Ids, NamesOf, NamesAt;
    var t := StepRule(s, w, from, id, k, r, have);
    GrownRefl(s.sets);
    AddRuleGrows(s.sets, id, k, PostedRule(r, w));
    AddRuleAdds(s.sets, id, k, PostedRule(r, w));
    if r.name in have || r.isDefault {
      assert t.log[|s.log|..] == [];
    } else {
      var reply := RuleReply(w.answers(s.asked));
      assert t.log[|s.log|..] == [RulePost(from, id, k, r, reply)];
    }
  }

  lemma DoneTwice(s: Run, t: Run, u: Run, from: nat, id: string, k: RuleKind, rs: seq<Rule>, qs: seq<Rule>,
                  have: set<string>)
    requires RulesDone(s, t, from, id, k, rs, have) && RulesDone(t, u, from, id, k, qs, have)
    ensures RulesDone(s, u, from, id, k, rs + qs, have)
  {
    hide Grown, UniqueIds, UniqueNames, Ids, NamesOf, NamesAt;
    var a, b, c := t.log[|s.log|..], u.log[|t.log|..], u.log[|s.log|..];
    assert c == a + b;
    assert forall p :: p in c <==> p in a || p in b;
    GrownTrans(s.sets, t.sets, u.sets);
    GrownRefl(u.sets);
    SentLater(a, from, id, k, rs, have, rs + qs, t.sets, u.sets);
    SentLater(b, from, id, k, qs, have, rs + qs, u.sets, u.sets);
    forall r | r in rs + qs && !r.isDefault && r.name !in have
      ensures exists p :: p in c && p.RulePost? && p.from == from && p.id == id && p.kind == k && p.rule == r
    {
      if r in rs {
        var p :| p in a && p.RulePost? && p.from == from && p.id == id && p.kind == k && p.rule == r;
        assert p in c;
      } else {
        var p :| p in b && p.RulePost? && p.from == from && p.id == id && p.kind == k && p.rule == r;
        assert p in c;
      }
    }
  }

  lemma {:induction false} SendRulesDone(s: Run, w: World, from: nat, id: string, k: RuleKind, rs: seq<Rule>,
                                         have: set<string>)
    requires id in Ids(s.sets)
    ensures RulesDone(s, SendRules(s, w, from, id, k, rs, have), from, id, k, rs, have)
  {
    hide StepRule, Ids;
    if rs == [] {
      GrownRefl(s.sets);
      assert s.log[|s.log|..] == [];
    } else {
      hide RulesDone;
      var n := |rs| - 1;
      var t := SendRules(s, w, from, id, k, rs[..n], have);
      SendRulesDone(s, w, from, id, k, rs[..n], have);
      RulesKeepIds(s, t, from, id, k, rs[..n], have);
      StepRuleDone(t, w, from, id, k, rs[n], have);
      DoneTwice(s, t, StepRule(t, w, from, id, k, rs[n], have), from, id, k, rs[..n], [rs[n]], have);
      assert rs == rs[..n] + [rs[n]];
    }
  }

  lemma RulesKeepIds(s: Run, t: Run, from: nat, id: string, k: RuleKind, rs: seq<Rule>, have: set<string>)
    requires RulesDone(s, t, from, id, k, rs, have)
    ensures Ids(t.sets) == Ids(s.sets) && NamesOf(t.sets) == NamesOf(s.sets)
  {
  }

  // --- both kinds of rules, into one set ------------------------------------------------------

  ghost predicate Filled(s: Run, t: Run, from: nat, id: string, obj: Set, haveN: set<string>, haveZ: set<string>) {
    && s.log <= t.log
    && Grown(s.sets, t.sets) && |t.sets| == |s.sets|
    && (UniqueIds(s.sets) ==> UniqueIds(t.sets)) && (UniqueNames(s.sets) ==> UniqueNames(t.sets))
    && Ids(t.sets) == Ids(s.sets) && NamesOf(t.sets) == NamesOf(s.sets)
    && (forall p :: p in t.log[|s.log|..] ==> p.RulePost?)
    && Tried(t.log[|s.log|..], from, id, Authentication, obj.authn, haveN)
    && Tried(t.log[|s.log|..], from, id, Authorization, obj.authz, haveZ)
    && Sent(t.log[|s.log|..], from, id, Authentication, obj.authn, haveN, t.sets)
    && Sent(t.log[|s.log|..], from, id, Authorization, obj.authz, haveZ, t.sets)
  }

  lemma TriedMore(a: seq<Post>, b: seq<Post>, from: nat, id: string, k: RuleKind, rs: seq<Rule>, have: set<string>)
    requires Tried(a, from, id, k, rs, have) && forall p :: p in a ==> p in b
    ensures Tried(b, from, id, k, rs, have)
  {
    forall r | r in rs && !r.isDefault && r.name !in have
      ensures exists p :: p in b && p.RulePost? && p.from == from && p.id == id && p.kind == k && p.rule == r
    {
      var p :| p in a && p.RulePost? && p.from == from && p.id == id && p.kind == k && p.rule == r;
      assert p in b;
    }
  }

  lemma FillDone(s: Run, w: World, from: nat, id: string, obj: Set, haveN: set<string>, haveZ: set<string>)
    requires id in Ids(s.sets)
    ensures Filled(s, Fill(s, w, from, id, obj, haveN, haveZ), from, id, obj, haveN, haveZ)
  {
    hide SendRules, Grown, UniqueIds, UniqueNames, Ids, NamesOf, NamesAt, Tried;
    var t := SendRules(s, w, from, id, Authentication, obj.authn, haveN);
    var u := SendRules(t, w, from, id, Authorization, obj.authz, haveZ);
    SendRulesDone(s, w, from, id, Authentication, obj.authn, haveN);
    SendRulesDone(t, w, from, id, Authorization, obj.authz, haveZ);
    var a, b, c := t.log[|s.log|..], u.log[|t.log|..], u.log[|s.log|..];
    assert c == a + b;
    assert forall p :: p in c <==> p in a || p in b;
    GrownTrans(s.sets, t.sets, u.sets);
    TriedMore(a, c, from, id, Authentication, obj.authn, haveN);
    TriedMore(b, c, from, id, Authorization, obj.authz, haveZ);
    SentLater(a, from, id, Authentication, obj.authn, haveN, obj.authn, t.sets, u.sets);
    assert Sent(c, from, id, Authentication, obj.authn, haveN, u.sets);
    assert Sent(c, from, id, Authorization, obj.authz, haveZ, u.sets);
  }

  // --- one entry ---------------------------------------------------------------------------

  ghost predicate Merges(e: Entry, id: string) {
    if e.action == Create && e.mergeId != "" then id == e.mergeId
    else e.action == Skip && e.obj.isDefault && e.defaultId != "" && id == e.defaultId
  }

  // A created set: the request, and, once it landed and was read back, its rules.
  ghost predicate SetCreated(s: Run, t: Run, e: Entry) {
    && |t.log| > |s.log| && t.log[..|s.log|] == s.log
    && var p := t.log[|s.log|];
       && p.SetPost? && p.from == e.from && p.name == Target(e)
       && if p.reply != Landed then t.sets == s.sets && |t.log| == |s.log| + 1
          else
            && p.id != "" && p.id !in Ids(s.sets)
            && |t.sets| == |s.sets| + 1 && t.sets[|s.sets|].id == p.id && t.sets[|s.sets|].name == Target(e)
            && if !p.read then |t.log| == |s.log| + 1
               else
                 && (forall q :: q in t.log[|s.log| + 1..] ==> q.RulePost?)
                 && Tried(t.log[|s.log| + 1..], e.from, p.id, Authentication, e.obj.authn, {})
                 && Tried(t.log[|s.log| + 1..], e.from, p.id, Authorization, e.obj.authz, {})
                 && Sent(t.log[|s.log| + 1..], e.from, p.id, Authentication, e.obj.authn, {}, t.sets)
                 && Sent(t.log[|s.log| + 1..], e.from, p.id, Authorization, e.obj.authz, {}, t.sets)
  }

  // What every entry keeps.
  ghost predicate Keeps(s: Run, t: Run, e: Entry) {
    && s.log <= t.log && Grown(s.sets, t.sets)
    && (UniqueIds(s.sets) ==> UniqueIds(t.sets))
    && NamesOf(t.sets) <= NamesOf(s.sets) + (if Creates(e) then {Target(e)} else {})
    && (UniqueNames(s.sets) && (Creates(e) ==> Target(e) !in NamesOf(s.sets)) ==> UniqueNames(t.sets))
  }

  lemma {:induction false} FirstNamedNew(sets: seq<Held>, h: Held)
    requires h.name !in NamesOf(sets)
    ensures FirstNamed(sets + [h], h.name) == h.id
  {
    if sets != [] {
      assert (sets + [h])[1..] == sets[1..] + [h];
      assert sets[0] in sets && forall x :: x in sets[1..] ==> x in sets;
      FirstNamedNew(sets[1..], h);
    } else {
      assert sets + [h] == [h];
    }
  }

  lemma SetAppended(sets: seq<Held>, h: Held)
    requires Mine(h) && h.id != "" && h.id !in Ids(sets)
    ensures Grown(sets, sets + [h])
    ensures UniqueIds(sets) ==> UniqueIds(sets + [h])
    ensures UniqueNames(sets) && h.name !in NamesOf(sets) ==> UniqueNames(sets + [h])
    ensures NamesOf(sets + [h]) == NamesOf(sets) + {h.name}
    ensures h.id in Ids(sets + [h])
  {
    hide Mine;
    assert forall i :: 0 <= i < |sets| ==> sets[i] in sets;
    assert h in sets + [h];
  }

  lemma NewSetIsMine(s: Set, name: string, id: string, w: World)
    ensures Mine(NewSet(s, name, id, w))
  {
    Marker.TagMarks(s.description, w.day);
  }

  lemma CreateSetDone(s: Run, w: World, e: Entry)
    requires Creates(e) && Target(e) !in NamesOf(s.sets)
    ensures SetCreated(s, CreateSet(s, w, e), e) && Keeps(s, CreateSet(s, w, e), e)
  {
    hide Mine, Fill, NamesAt, Tried, Sent, Grown, UniqueIds, UniqueNames, NamesOf, Ids, NewSet, FirstNamed;
    var t := CreateSet(s, w, e);
    var a := w.answers(s.asked);
    var name := Target(e);
    GrownRefl(s.sets);
    if SetReply(s.sets, a) == Landed {
      var h := NewSet(e.obj, name, a.id, w);
      NewSetFields(e.obj, name, a.id, w);
      NewSetIsMine(e.obj, name, a.id, w);
      SetAppended(s.sets, h);
      FirstNamedNew(s.sets, h);
      var p := SetPost(e.from, name, a.id, Landed, w.relists(s.asked));
      var u := Run(s.sets + [h], s.asked + 1, s.log + [p], s.tally.(created := s.tally.created + 1));
      if w.relists(s.asked) {
        FillDone(u, w, e.from, a.id, e.obj, {}, {});
        CreatedThenFilled(s, w, e, u, t, h);
      }
    }
  }

  lemma NewSetFields(s: Set, name: string, id: string, w: World)
    ensures NewSet(s, name, id, w).name == name && NewSet(s, name, id, w).id == id
  {
  }

  lemma CreatedThenFilled(s: Run, w: World, e: Entry, u: Run, t: Run, h: Held)
    requires u.sets == s.sets + [h] && |u.log| == |s.log| + 1 && u.log[..|s.log|] == s.log
    requires u.log[|s.log|] == SetPost(e.from, Target(e), h.id, Landed, true)
    requires h.name == Target(e) && h.id != "" && h.id !in Ids(s.sets) && Creates(e)
    requires Grown(s.sets, u.sets) && (UniqueIds(s.sets) ==> UniqueIds(u.sets))
    requires NamesOf(u.sets) == NamesOf(s.sets) + {h.name}
    requires UniqueNames(s.sets) && h.name !in NamesOf(s.sets) ==> UniqueNames(u.sets)
    requires Filled(u, t, e.from, h.id, e.obj, {}, {})
    ensures SetCreated(s, t, e) && Keeps(s, t, e)
  {
    hide Mine, NamesAt, Tried, Sent, UniqueIds, UniqueNames, NamesOf, Ids;
    GrownTrans(s.sets, u.sets, t.sets);
    assert Extends(u.sets[|s.sets|], t.sets[|s.sets|]);
    assert t.log[..|s.log|] == u.log[..|s.log|];
    assert t.log[|s.log|] == u.log[|s.log|];
  }

  lemma MergeDone(s: Run, w: World, e: Entry, id: string)
    requires id in Ids(s.sets)
    ensures Filled(s, Merge(s, w, e, id), e.from, id, e.obj,
                   Listed(s, w, id, Authentication), Listed(s, w, id, Authorization))
  {
    hide Fill, Filled;
    FillDone(s, w, e.from, id, e.obj, Listed(s, w, id, Authentication), Listed(s, w, id, Authorization));
  }

  // An entry does one of three things.
  ghost predicate Done(s: Run, t: Run, e: Entry, w: World) {
    && Keeps(s, t, e)
    && (Creates(e) ==> SetCreated(s, t, e))
    && (forall id :: Merges(e, id) ==>
          Filled(s, t, e.from, id, e.obj, Listed(s, w, id, Authentication), Listed(s, w, id, Authorization)))
    && (!Creates(e) && (forall id :: !Merges(e, id)) ==> t.log == s.log && t.sets == s.sets)
  }

  // An entry of this report that can be carried out now.
  ghost predicate Ready(s: Run, e: Entry) {
    && (Creates(e) ==> Target(e) !in NamesOf(s.sets))
    && (forall id :: Merges(e, id) ==> id in Ids(s.sets))
    && (e.action == Create && e.mergeId == "" ==> !e.obj.isDefault)
  }

  lemma FilledIgnoresTally(s: Run, s': Run, t: Run, from: nat, id: string, obj: Set, haveN: set<string>,
                           haveZ: set<string>)
    requires Filled(s', t, from, id, obj, haveN, haveZ) && s'.sets == s.sets && s'.log == s.log
    ensures Filled(s, t, from, id, obj, haveN, haveZ)
  {
  }

  lemma FilledKeeps(s: Run, t: Run, e: Entry, id: string, haveN: set<string>, haveZ: set<string>)
    requires Filled(s, t, e.from, id, e.obj, haveN, haveZ) && !Creates(e)
    ensures Keeps(s, t, e)
  {
    hide Grown, UniqueIds, UniqueNames, NamesOf, Ids, NamesAt, Tried, Sent;
  }

  lemma StepDone(s: Run, w: World, e: Entry)
    requires Ready(s, e)
    ensures Done(s, Step(s, w, e), e, w)
  {
    hide Keeps, SetCreated, Filled, Merge, CreateSet, NamesAt, Target;
    var t := Step(s, w, e);
    if Creates(e) {
      CreateSetDone(s, w, e);
    } else if e.action == Create {
      assert Merges(e, e.mergeId);
      MergeDone(s, w, e, e.mergeId);
      FilledKeeps(s, t, e, e.mergeId, Listed(s, w, e.mergeId, Authentication), Listed(s, w, e.mergeId, Authorization));
    } else if e.action == Skip && e.obj.isDefault && e.defaultId != "" {
      var s' := s.(tally := s.tally.(skipped := s.tally.skipped + 1));
      assert Merges(e, e.defaultId);
      var n, z := Listed(s, w, e.defaultId, Authentication), Listed(s, w, e.defaultId, Authorization);
      MergeDone(s', w, e, e.defaultId);
      FilledIgnoresTally(s, s', t, e.from, e.defaultId, e.obj, n, z);
      FilledKeeps(s, t, e, e.defaultId, n, z);
    } else {
      NothingKeeps(s, t, e);
    }
  }

  lemma NothingKeeps(s: Run, t: Run, e: Entry)
    requires t.sets == s.sets && t.log == s.log && !Creates(e)
    ensures Keeps(s, t, e)
  {
    GrownRefl(s.sets);
  }
}
