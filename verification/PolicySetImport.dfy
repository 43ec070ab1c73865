// The policy-set passes as the program performs them, over a deployment that
// changes with every request. Each is proved to do what PolicySets specifies.
module PolicySetImport {
  import opened Objects
  import opened Report
  import opened Conditions
  import opened PolicySets

  class Deployment {
    var sets: seq<Held>
    var asked: nat
    const world: World

    constructor (sets: seq<Held>, world: World)
      ensures this.sets == sets && asked == 0 && this.world == world
    {
      this.sets, asked, this.world := sets, 0, world;
    }

    method PostSet(s: Set, name: string) returns (reply: Reply, read: bool)
      modifies this
      ensures var a := world.answers(old(asked));
              && reply == SetReply(old(sets), a) && read == world.relists(old(asked)) && asked == old(asked) + 1
              && sets == if reply == Landed then old(sets) + [NewSet(s, name, a.id, world)] else old(sets)
    {
      var a := world.answers(asked);
      reply, read := SetReply(sets, a), world.relists(asked);
      asked := asked + 1;
      if reply == Landed {
        sets := sets + [NewSet(s, name, a.id, world)];
      }
    }

    method PostRule(id: string, k: RuleKind, r: Rule) returns (reply: Reply)
      modifies this
      ensures reply == RuleReply(world.answers(old(asked))) && asked == old(asked) + 1
      ensures sets == if reply == Landed then AddRule(old(sets), id, k, r) else old(sets)
    {
      reply := RuleReply(world.answers(asked));
      asked := asked + 1;
      if reply == Landed {
        sets := AddRule(sets, id, k, r);
      }
    }
  }

  // --- pre-flight -------------------------------------------------------------------

  method IndexSets(sets: seq<Held>) returns (m: map<string, Held>)
    ensures m == SetsByName(sets)
  {
    m := map[];
    for i := 0 to |sets|
      invariant m == SetsByName(sets[..i])
    {
      assert sets[..i + 1][..i] == sets[..i];
      m := m[sets[i].name := sets[i]];
    }
    assert sets[..|sets|] == sets;
  }

  method FreeSetName(name: string, existing: map<string, Held>) returns (free: string)
    ensures free == FreeName(name, existing)
  {
    hide Suffix, Mine;
    for i := 1 to 100
      invariant FreeName(name, existing) == FreeNameFrom(name, existing, i)
    {
      var candidate := name + Suffix(i);
      if candidate !in existing { return candidate; }
      if Mine(existing[candidate]) { return ""; }
    }
    return "";
  }

  // The names of the rules of one set, of one kind.
  method ReadRuleNames(sets: seq<Held>, id: string, k: RuleKind) returns (have: set<string>)
    ensures have == NamesAt(sets, id, k)
  {
    have := {};
    for i := 0 to |sets|
      invariant have == NamesAt(sets[..i], id, k)
    {
      assert sets[..i + 1] == sets[..i] + [sets[i]];
      NamesAtNext(sets[..i], sets[i], id, k);
      if sets[i].id == id {
        have := have + RuleNames(sets[i], k);
      }
    }
    assert sets[..|sets|] == sets;
  }

  lemma NamesAtNext(sets: seq<Held>, h: Held, id: string, k: RuleKind)
    ensures NamesAt(sets + [h], id, k) == NamesAt(sets, id, k) + if h.id == id then RuleNames(h, k) else {}
  {
    assert forall x :: x in sets + [h] <==> x in sets || x == h;
  }

  method ListMissing(rs: seq<Rule>, k: RuleKind, have: set<string>, env: Env) returns (missing: seq<string>)
    ensures missing == Missing(rs, k, have, env)
  {
    hide CheckRule;
    missing := [];
    for i := 0 to |rs|
      invariant Missing(rs, k, have, env) == missing + Missing(rs[i..], k, have, env)
    {
      var r := rs[i];
      assert rs[i..][1..] == rs[i + 1..];
      if !r.isDefault && r.name !in have && CheckRule(r, k, env) == Fine {
        missing := missing + [r.name];
      }
    }
  }

  method KeepResolvable(rs: seq<Rule>, k: RuleKind, env: Env) returns (keep: seq<Rule>)
    ensures keep == Kept(rs, k, env)
  {
    hide CheckRule;
    keep := [];
    for i := 0 to |rs|
      invariant Kept(rs, k, env) == keep + Kept(rs[i..], k, env)
    {
      assert rs[i..][1..] == rs[i + 1..];
      if CheckRule(rs[i], k, env) == Fine {
        keep := keep + [rs[i]];
      }
    }
  }

  method DecideByName(existing: map<string, Held>, ghost sets: seq<Held>, i: nat, s: Set) returns (e: Entry)
    requires existing == SetsByName(sets)
    ensures e == ByName(sets, i, s)
  {
    hide SetsByName, FreeName;
    e := Entry(i, Create, Plain, "", "", "", s);
    if s.name == "" {
      e := e.(action := Blocked, why := Nameless);
    } else if s.isDefault {
      e := e.(action := Skip, why := DefaultMerged);
    } else if s.name in existing {
      if Mine(existing[s.name]) {
        e := e.(action := Skip, why := AlreadyImported, mergeId := existing[s.name].id);
      } else {
        var imported := FreeSetName(s.name, existing);
        if imported == "" {
          e := e.(action := Skip, why := AlreadyImported);
        } else {
          e := e.(action := Create, why := Beside(imported), targetName := imported);
        }
      }
    }
  }

  method Decide(existing: map<string, Held>, sets: seq<Held>, i: nat, s: Set, env: Env) returns (es: seq<Entry>)
    requires existing == SetsByName(sets)
    ensures es == Entries(sets, i, s, env)
  {
    hide SetsByName, ByName, CheckSet, Missing, Kept, NamesAt;
    var e := DecideByName(existing, sets, i, s);
    if e.action != Blocked && !s.isDefault {
      var finding := CheckSet(s, env);
      if finding != Fine {
        e := e.(action := Blocked, why := Unresolved(finding));
      }
    }
    if s.isDefault {
      var authn := KeepResolvable(s.authn, Authentication, env);
      var authz := KeepResolvable(s.authz, Authorization, env);
      e := e.(obj := s.(authn := authn, authz := authz),
              defaultId := if DEFAULT in existing then existing[DEFAULT].id else "");
    }
    assert e == Checked(sets, i, s, env);
    es := [e];
    if e.action == Skip && e.mergeId != "" {
      assert e.obj == s && !s.isDefault by { NotDefaultWhenMine(sets, i, s, env); }
      var haveN := ReadRuleNames(sets, e.mergeId, Authentication);
      var haveZ := ReadRuleNames(sets, e.mergeId, Authorization);
      var missN := ListMissing(s.authn, Authentication, haveN, env);
      var missZ := ListMissing(s.authz, Authorization, haveZ, env);
      if missN + missZ != [] {
        es := [e.(action := Create, why := MissingRules(missN + missZ)), e];
      }
    }
  }

  lemma NotDefaultWhenMine(sets: seq<Held>, i: nat, s: Set, env: Env)
    requires Checked(sets, i, s, env).mergeId != ""
    ensures !s.isDefault && Checked(sets, i, s, env).obj == s
  {
    hide SetsByName, CheckSet, Kept, FreeName, Mine;
  }

  method PreflightPolicySets(d: Deployment, bundle: seq<Set>, env: Env) returns (report: seq<Entry>)
    ensures report == Preflight(d.sets, bundle, env)
  {
    hide Entries, SetsByName;
    var sets := d.sets;
    var existing := IndexSets(sets);
    report := [];
    for i := 0 to |bundle|
      invariant report == Preflight(sets, bundle[..i], env)
    {
      assert bundle[..i + 1][..i] == bundle[..i];
      var es := Decide(existing, sets, i, bundle[i], env);
      report := report + es;
    }
    assert bundle[..|bundle|] == bundle;
  }

  // --- apply -----------------------------------------------------------------------------

  // The deployment and the counters are where the run is.
  ghost predicate In(d: Deployment, res: ImportResult, s: Run, base: Tally)
    reads d, res
  {
    d.sets == s.sets && d.asked == s.asked && res.View() == Plus(base, s.tally)
  }

  method CreateRule(d: Deployment, res: ImportResult, from: nat, id: string, k: RuleKind, r: Rule,
                    existing: set<string>, ghost s: Run, ghost base: Tally)
    requires In(d, res, s, base)
    modifies d, res
    ensures In(d, res, StepRule(s, d.world, from, id, k, r, existing), base)
  {
    hide AddRule;
    if r.name in existing {
      res.skipped := res.skipped + 1;
      return;
    }
    if r.isDefault {
      return;
    }
    var posted := PostedRule(r, d.world);
    var reply := d.PostRule(id, k, posted);
    match reply {
      case Landed => res.created := res.created + 1;
      case AlreadyThere => res.skipped := res.skipped + 1;
      case Refused =>
        res.failed := res.failed + 1;   // by the create itself
        res.failed := res.failed + 1;   // and by its caller
    }
  }

  method CreateRules(d: Deployment, res: ImportResult, from: nat, id: string, k: RuleKind, rs: seq<Rule>,
                     existing: set<string>, ghost s: Run, ghost base: Tally)
    requires In(d, res, s, base)
    modifies d, res
    ensures In(d, res, SendRules(s, d.world, from, id, k, rs, existing), base)
  {
    hide StepRule, In;
    ghost var t := s;
    for i := 0 to |rs|
      invariant t == SendRules(s, d.world, from, id, k, rs[..i], existing) && In(d, res, t, base)
    {
      assert rs[..i + 1][..i] == rs[..i];
      CreateRule(d, res, from, id, k, rs[i], existing, t, base);
      t := StepRule(t, d.world, from, id, k, rs[i], existing);
    }
    assert rs[..|rs|] == rs;
  }

  method FillSet(d: Deployment, res: ImportResult, from: nat, id: string, obj: Set, haveN: set<string>,
                 haveZ: set<string>, ghost s: Run, ghost base: Tally)
    requires In(d, res, s, base)
    modifies d, res
    ensures In(d, res, Fill(s, d.world, from, id, obj, haveN, haveZ), base)
  {
    hide SendRules, In;
    CreateRules(d, res, from, id, Authentication, obj.authn, haveN, s, base);
    CreateRules(d, res, from, id, Authorization, obj.authz, haveZ,
                SendRules(s, d.world, from, id, Authentication, obj.authn, haveN), base);
  }

  method FindSet(sets: seq<Held>, name: string) returns (id: string)
    ensures id == FirstNamed(sets, name)
  {
    for i := 0 to |sets|
      invariant FirstNamed(sets, name) == FirstNamed(sets[i..], name)
    {
      assert sets[i..][1..] == sets[i + 1..];
      if sets[i].name == name { return sets[i].id; }
    }
    return "";
  }

  method CreateOneSet(d: Deployment, res: ImportResult, e: Entry, ghost s: Run, ghost base: Tally)
    requires In(d, res, s, base)
    modifies d, res
    ensures In(d, res, CreateSet(s, d.world, e), base)
  {
    hide Fill, NewSet, FirstNamed, Ids;
    var name := if e.targetName != "" then e.targetName else e.obj.name;
    ghost var a := d.world.answers(s.asked);
    var reply, read := d.PostSet(e.obj, name);
    if reply == AlreadyThere {
      res.skipped := res.skipped + 1;
      return;
    }
    if reply == Refused || !read {
      res.failed := res.failed + 1;
      return;
    }
    var id := FindSet(d.sets, name);
    if id == "" {
      res.failed := res.failed + 1;
      return;
    }
    res.created := res.created + 1;
    ghost var t := Run(d.sets, d.asked, s.log + [SetPost(e.from, name, a.id, Landed, true)],
                       s.tally.(created := s.tally.created + 1));
    FillSet(d, res, e.from, id, e.obj, {}, {}, t, base);
  }

  method MergeSet(d: Deployment, res: ImportResult, e: Entry, id: string, ghost s: Run, ghost base: Tally)
    requires In(d, res, s, base)
    modifies d, res
    ensures In(d, res, Merge(s, d.world, e, id), base)
  {
    hide Fill, NamesAt;
    var haveN, haveZ := {}, {};
    if d.world.lists(d.asked, Authentication) { haveN := ReadRuleNames(d.sets, id, Authentication); }
    if d.world.lists(d.asked, Authorization) { haveZ := ReadRuleNames(d.sets, id, Authorization); }
    FillSet(d, res, e.from, id, e.obj, haveN, haveZ, s, base);
  }

  method ApplyEntry(d: Deployment, res: ImportResult, e: Entry, ghost s: Run, ghost base: Tally)
    requires In(d, res, s, base)
    modifies d, res
    ensures In(d, res, Step(s, d.world, e), base)
  {
    hide Merge, CreateSet;
    var mergeDefault := e.action == Skip && e.obj.isDefault;
    var mergeMine := e.action == Create && e.mergeId != "";
    if e.action != Create && !mergeDefault {
      if e.action == Skip {
        res.skipped := res.skipped + 1;
      } else {
        res.blocked := res.blocked + 1;
      }
      return;
    }
    ghost var t := if mergeDefault then s.(tally := s.tally.(skipped := s.tally.skipped + 1)) else s;
    if mergeDefault {
      res.skipped := res.skipped + 1;
    }
    if mergeMine {
      MergeSet(d, res, e, e.mergeId, t, base);
    } else if e.obj.isDefault {
      if e.defaultId == "" {
        res.failed := res.failed + 1;
      } else {
        MergeSet(d, res, e, e.defaultId, t, base);
      }
    } else {
      CreateOneSet(d, res, e, t, base);
    }
  }

  // Creates and merges what pre-flight cleared, in report order.
  method ApplyPolicySets(d: Deployment, report: seq<Entry>, res: ImportResult)
    modifies d, res
    ensures var f := Apply(Start(old(d.sets), old(d.asked)), d.world, report);
            && d.sets == f.sets && d.asked == f.asked
            && res.View() == Plus(old(res.View()), f.tally)
  {
    hide Step;
    ghost var base := res.View();
    ghost var start := Start(d.sets, d.asked);
    ghost var s := start;
    for i := 0 to |report|
      invariant s == Apply(start, d.world, report[..i]) && In(d, res, s, base)
    {
      assert report[..i + 1][..i] == report[..i];
      ApplyEntry(d, res, report[i], s, base);
      s := Step(s, d.world, report[i]);
    }
    assert report[..|report|] == report;
  }
}
