// Whole-run properties of the policy-set import: over any bundle an export
// produces, any target, and any pattern of answers.
module PolicySetTheorems {
  import opened Objects
  import opened Report
  import opened Conditions
  import opened PolicySets
  import opened PolicySetNames
  import opened PolicySetRuns

  // One run: the target it found, the bundle, and everything it depends on.
  datatype Pass = Pass(sets: seq<Held>, asked: nat, bundle: seq<Set>, env: Env, world: World)

  function ReportOf(c: Pass): seq<Entry> { Preflight(c.sets, c.bundle, c.env) }

  ghost function At(c: Pass, k: nat): Run
    requires k <= |ReportOf(c)|
  {
    Apply(Start(c.sets, c.asked), c.world, ReportOf(c)[..k])
  }

  ghost function Final(c: Pass): Run { At(c, |ReportOf(c)|) }

  // Every deployment has its Default set, and ids and names tell its sets apart.
  ghost predicate Sound(c: Pass) {
    UniqueIds(c.sets) && UniqueNames(c.sets) && DEFAULT in NamesOf(c.sets) && Importable(c.bundle)
  }

  // --- every entry can be carried out when it is reached ---------------------------------

  function Targets(report: seq<Entry>): set<string> { set e | e in report && Creates(e) :: Target(e) }

  ghost predicate Sensible(sets: seq<Held>, e: Entry) {
    && (Creates(e) ==> Target(e) !in NamesOf(sets))
    && (forall id :: Merges(e, id) ==> id in Ids(sets))
    && (e.action == Create && e.mergeId == "" ==> !e.obj.isDefault)
  }

  lemma EntrySensible(sets: seq<Held>, i: nat, s: Set, env: Env, e: Entry)
    requires e in Entries(sets, i, s, env) && DEFAULT in NamesOf(sets)
    ensures Sensible(sets, e)
  {
    hide MissingAt, FreeName, CheckSet, KeptSet, NamesOf, SetsByName;
    SetsByNameKeys(sets);
    EntriesFrom(sets, i, s, env);
    if Creates(e) {
      CreatedName(sets, i, s, env);
    }
  }

  lemma NextState(c: Pass, k: nat)
    requires k < |ReportOf(c)|
    ensures At(c, k + 1) == Step(At(c, k), c.world, ReportOf(c)[k])
  {
    hide Step, Preflight;
    assert ReportOf(c)[..k + 1][..k] == ReportOf(c)[..k];
  }

  lemma GrownIds(a: seq<Held>, b: seq<Held>)
    requires Grown(a, b)
    ensures Ids(a) <= Ids(b) && NamesOf(a) <= NamesOf(b)
  {
    hide Mine;
    forall h | h in a
      ensures h.id in Ids(b) && h.name in NamesOf(b)
    {
      var i :| 0 <= i < |a| && a[i] == h;
      assert Extends(a[i], b[i]) && b[i] in b;
    }
  }

  ghost predicate Holds(c: Pass, k: nat, s: Run)
    requires k <= |ReportOf(c)|
  {
    && Grown(c.sets, s.sets) && UniqueIds(s.sets) && UniqueNames(s.sets)
    && NamesOf(s.sets) <= NamesOf(c.sets) + Targets(ReportOf(c)[..k])
  }

  lemma ReadyAt(c: Pass, k: nat, s: Run)
    requires Sound(c) && k < |ReportOf(c)| && Holds(c, k, s)
    ensures Ready(s, ReportOf(c)[k])
  {
    hide Preflight, Grown, UniqueIds, UniqueNames, Importable, Target, Creates, Merges, NamesOf, Ids, Entries;
    var report := ReportOf(c);
    var e := report[k];
    ReportEntries(c.sets, c.bundle, c.env);
    ReportTargets(c.sets, c.bundle, c.env);
    assert EntryOf(c.sets, c.bundle, c.env, e);
    EntrySensible(c.sets, e.from, c.bundle[e.from], c.env, e);
    GrownIds(c.sets, s.sets);
    forall x | x in report[..k] && Creates(x) && Creates(e)
      ensures Target(x) != Target(e)
    {
      var i :| 0 <= i < k && report[..k][i] == x;
      assert report[i] == x;
    }
  }

  lemma TargetsNext(report: seq<Entry>, k: nat)
    requires k < |report|
    ensures Targets(report[..k + 1]) == Targets(report[..k]) + if Creates(report[k]) then {Target(report[k])} else {}
  {
    hide Creates, Target;
    assert report[..k + 1] == report[..k] + [report[k]];
  }

  lemma HoldsNext(c: Pass, k: nat, s: Run, t: Run)
    requires k < |ReportOf(c)| && Holds(c, k, s) && Ready(s, ReportOf(c)[k])
    requires Keeps(s, t, ReportOf(c)[k])
    ensures Holds(c, k + 1, t)
  {
    hide Preflight, Grown, UniqueIds, UniqueNames, Creates, Target, NamesOf, Targets, Merges;
    GrownTrans(c.sets, s.sets, t.sets);
    TargetsNext(ReportOf(c), k);
  }

  lemma {:induction false} Reached(c: Pass, k: nat)
    requires Sound(c) && k <= |ReportOf(c)|
    ensures Holds(c, k, At(c, k))
    ensures k < |ReportOf(c)| ==> Ready(At(c, k), ReportOf(c)[k]) && Done(At(c, k), At(c, k +
              1), ReportOf(c)[k], c.world)
  {
    hide Preflight, Holds, Ready, Keeps, SetCreated, Filled, Step, Merges;
    if k == 0 {
      Begins(c);
    } else {
      Reached(c, k - 1);
      HoldsNext(c, k - 1, At(c, k - 1), At(c, k));
    }
    if k < |ReportOf(c)| {
      ReadyAt(c, k, At(c, k));
      StepDone(At(c, k), c.world, ReportOf(c)[k]);
      NextState(c, k);
    }
  }

  lemma Begins(c: Pass)
    requires Sound(c)
    ensures Holds(c, 0, At(c, 0))
  {
    hide Preflight;
    GrownRefl(c.sets);
  }

  // --- the log ------------------------------------------------------------------------------

  ghost function Part(c: Pass, k: nat): seq<Post>
    requires k < |ReportOf(c)| && |At(c, k).log| <= |At(c, k + 1).log|
  {
    At(c, k + 1).log[|At(c, k).log|..]
  }

  lemma {:induction false} StatesGrow(c: Pass, k: nat, n: nat)
    requires Sound(c) && k <= n <= |ReportOf(c)|
    ensures At(c, k).log <= At(c, n).log && Grown(At(c, k).sets, At(c, n).sets)
    decreases n - k
  {
    hide Preflight, Holds, Ready, SetCreated, Filled, Merges, Grown, At;
    GrownRefl(At(c, k).sets);
    if k < n {
      Reached(c, k);
      StatesGrow(c, k + 1, n);
      GrownTrans(At(c, k).sets, At(c, k + 1).sets, At(c, n).sets);
    }
  }

  // Every request belongs to one entry of the report.
  lemma {:induction false} PostOfEntry(c: Pass, n: nat, p: Post) returns (k: nat)
    requires Sound(c) && n <= |ReportOf(c)| && p in At(c, n).log
    ensures k < n && |At(c, k).log| <= |At(c, k + 1).log| && p in Part(c, k)
  {
    hide *;
    StartLog(c);
    if n == 0 {
      assert false;
    } else {
      StatesGrow(c, n - 1, n);
      if p in At(c, n - 1).log {
        k := PostOfEntry(c, n - 1, p);
      } else {
        k := n - 1;
        PartIs(c, k);
      }
    }
  }

  lemma StartLog(c: Pass)
    ensures At(c, 0).log == []
  {
    hide Preflight;
  }

  lemma PartIs(c: Pass, k: nat)
    requires k < |ReportOf(c)| && At(c, k).log <= At(c, k + 1).log
    ensures At(c, k + 1).log == At(c, k).log + Part(c, k)
  {
    hide Preflight, At;
  }

  // --- what one entry leaves on the target, at the end of the run ------------------------------

  // The entry's set landed under this id, read back or not.
  ghost predicate LandedAs(c: Pass, k: nat, id: string, read: bool)
    requires k < |ReportOf(c)|
  {
    && |At(c, k + 1).log| > |At(c, k).log|
    && var p := At(c, k + 1).log[|At(c, k).log|];
       p.SetPost? && p.reply == Landed && p.id == id && p.read == read
  }

  lemma LandedIsThere(c: Pass, k: nat, id: string, read: bool)
    requires Sound(c) && k < |ReportOf(c)| && Creates(ReportOf(c)[k]) && LandedAs(c, k, id, read)
    ensures exists h :: h in Final(c).sets && h.id == id && h.name == Target(ReportOf(c)[k])
  {
    hide Preflight, Holds, Ready, Merges, Grown, Target, Creates, Keeps, Tried, Sent;
    Reached(c, k);
    StatesGrow(c, k + 1, |ReportOf(c)|);
    var s, t, f := At(c, k), At(c, k + 1), Final(c);
    assert t.sets[|s.sets|].id == id && t.sets[|s.sets|].name == Target(ReportOf(c)[k]);
    SetKept(t.sets, f.sets, |s.sets|);
  }

  lemma SetKept(a: seq<Held>, b: seq<Held>, i: nat)
    requires Grown(a, b) && i < |a|
    ensures i < |b| && b[i] in b && b[i].id == a[i].id && b[i].name == a[i].name && Mine(b[i]) == Mine(a[i])
  {
    hide Mine;
    assert Extends(a[i], b[i]);
    MineKept(a[i], b[i]);
  }

  // A rule sent into one set; once it landed, the set has one of its name.
  ghost predicate RuleSent(p: Post, from: nat, id: string, sets: seq<Held>) {
    p.RulePost? && p.from == from && p.id == id && (p.reply == Landed ==> p.rule.name in NamesAt(sets, id, p.kind))
  }

  // What a merge sent and what landed of it.
  lemma MergedRules(c: Pass, k: nat, id: string)
    requires Sound(c) && k < |ReportOf(c)| && Merges(ReportOf(c)[k], id)
    ensures var e := ReportOf(c)[k];
            && At(c, k).log <= At(c, k + 1).log
            && (forall p :: p in Part(c, k) ==> RuleSent(p, e.from, id, Final(c).sets))
            && (forall kind, r :: r in RulesOf(e.obj, kind) && !r.isDefault && r.name !in NamesAt(Final(c).sets, id,
                 kind) ==>
                  exists p :: p in Part(c, k) && p.RulePost? && p.from == e.from && p.kind == kind && p.rule == r)
  {
    hide Preflight, Holds, Ready, Merges, Grown, Creates, Keeps, SetCreated, At, NamesAt;
    Reached(c, k);
    var e, s, t, f := ReportOf(c)[k], At(c, k), At(c, k + 1), Final(c);
    StatesGrow(c, k, |ReportOf(c)|);
    StatesGrow(c, k + 1, |ReportOf(c)|);
    GrownNames(s.sets, f.sets, id, Authentication);
    GrownNames(s.sets, f.sets, id, Authorization);
    GrownNames(t.sets, f.sets, id, Authentication);
    GrownNames(t.sets, f.sets, id, Authorization);
    forall p | p in Part(c, k)
      ensures RuleSent(p, e.from, id, f.sets)
    {
      assert p.RulePost?;
      if p.kind == Authentication {} else {}
    }
    forall kind, r | r in RulesOf(e.obj, kind) && !r.isDefault && r.name !in NamesAt(f.sets, id, kind)
      ensures exists p :: p in Part(c, k) && p.RulePost? && p.from == e.from && p.kind == kind && p.rule == r
    {
      if kind == Authentication {} else {}
    }
  }

  // What creating a set sent after it, and what landed of it.
  lemma CreatedRules(c: Pass, k: nat, id: string)
    requires Sound(c) && k < |ReportOf(c)| && Creates(ReportOf(c)[k]) && LandedAs(c, k, id, true)
    ensures var e := ReportOf(c)[k];
            && (forall p :: p in At(c, k + 1).log[|At(c, k).log| + 1..] ==> RuleSent(p, e.from, id, Final(c).sets))
            && (forall kind, r :: r in RulesOf(e.obj, kind) && !r.isDefault ==>
                  exists p :: p in At(c, k + 1).log[|At(c, k).log| + 1..] && p.RulePost?
                    && p.from == e.from && p.kind == kind && p.rule == r)
  {
    hide Preflight, Holds, Ready, Merges, Grown, Creates, Keeps, Filled, At, NamesAt, Target;
    Reached(c, k);
    var e, s, t, f := ReportOf(c)[k], At(c, k), At(c, k + 1), Final(c);
    StatesGrow(c, k + 1, |ReportOf(c)|);
    GrownNames(t.sets, f.sets, id, Authentication);
    GrownNames(t.sets, f.sets, id, Authorization);
    var seg := t.log[|s.log| + 1..];
    assert SetCreated(s, t, e);
    forall p | p in seg
      ensures RuleSent(p, e.from, id, f.sets)
    {
      assert p.RulePost?;
      if p.kind == Authentication {} else {}
    }
    forall kind, r | r in RulesOf(e.obj, kind) && !r.isDefault
      ensures exists p :: p in seg && p.RulePost? && p.from == e.from && p.kind == kind && p.rule == r
    {
      if kind == Authentication {} else {}
    }
  }
}
