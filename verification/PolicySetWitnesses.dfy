// Runs at which an earlier import does not get a rule it lacks.
module PolicySetWitnesses {
  import opened Objects
  import opened Report
  import opened Conditions
  import opened PolicySets
  import opened PolicySetNames
  import opened PolicySetRuns
  import opened PolicySetTheorems
  import opened PolicySetCompletion
  import opened PolicySetArrivals
  import Marker

  // --- a target that takes one set and none of its rules --------------------------------

  function Grudging(n: nat): Answer { if n == 0 then Accept("new") else Refuse }

  function WorldOf(day: Marker.Day): World {
    World(Grudging, n => true, (n, k) => true, map[], false, day, [], [])
  }

  function HeldAs(id: string, name: string): Held { Held(id, name, "", "enabled", "", None, [], []) }

  function RuleOf(name: string, profile: string): Rule { Rule(name, false, "enabled", None, "", [profile], "") }

  function SetOf(rules: seq<Rule>): Set { Set("Wired", false, "", "enabled", "", None, [], rules) }

  function Knowing(profiles: set<string>): Env { Env({}, {}, {}, profiles, {}, {}, map[]) }

  lemma {:induction false} RefusedRules(s: Run, w: World, from: nat, id: string, k: RuleKind, rs: seq<Rule>,
                                        have: set<string>)
    requires forall n: nat :: n >= s.asked ==> w.answers(n) == Refuse
    ensures var t := SendRules(s, w, from, id, k, rs, have);
            t.sets == s.sets && s.log <= t.log && t.asked >= s.asked
  {
    if rs != [] { RefusedRules(s, w, from, id, k, rs[..|rs| - 1], have); }
  }

  // The one set of the bundle is put there, and nothing more is.
  lemma OnlyTheSetLands(c: Pass, e: Entry, day: Marker.Day) returns (p: Post)
    requires c.world == WorldOf(day) && c.asked == 0 && ReportOf(c) == [e]
    requires Creates(e) && Target(e) !in NamesOf(c.sets) && "new" !in Ids(c.sets) && e.from < |c.bundle|
    ensures PutThere(c, p) && p.from == e.from && p.name == Target(e) && p.id == "new"
    ensures Final(c).sets == c.sets + [NewSet(e.obj, Target(e), "new", c.world)]
  {
    hide Preflight, Creates, NewSet;
    var w, s := c.world, Start(c.sets, 0);
    assert ReportOf(c)[..1] == [e] && [e][..0] == [];
    assert Final(c) == CreateSet(s, w, e) by { OneStep(s, w, e); }
    var h := NewSet(e.obj, Target(e), "new", w);
    NewSetFields(e.obj, Target(e), "new", w);
    FirstNamedNew(c.sets, h);
    p := SetPost(e.from, Target(e), "new", Landed, true);
    var t := Run(c.sets + [h], 1, [p], Tally(1, 0, 0, 0));
    assert Final(c) == Fill(t, w, e.from, "new", e.obj, {}, {}) by { FirstRequest(c.sets, w, e, h, p); }
    var u := SendRules(t, w, e.from, "new", Authentication, e.obj.authn, {});
    RefusedRules(t, w, e.from, "new", Authentication, e.obj.authn, {});
    RefusedRules(u, w, e.from, "new", Authorization, e.obj.authz, {});
    assert t.log[0] in Final(c).log;
  }

  lemma OneStep(s: Run, w: World, e: Entry)
    requires Creates(e)
    ensures Apply(s, w, [e]) == CreateSet(s, w, e)
  {
    hide CreateSet;
    assert [e][..0] == [];
  }

  lemma FirstRequest(sets: seq<Held>, w: World, e: Entry, h: Held, p: Post)
    requires w.answers(0) == Accept("new") && w.relists(0) && "new" !in Ids(sets)
    requires h == NewSet(e.obj, Target(e), "new", w) && p == SetPost(e.from, Target(e), "new", Landed, true)
    requires FirstNamed(sets + [h], Target(e)) == "new"
    ensures CreateSet(Start(sets, 0), w, e) == Fill(Run(sets +
              [h], 1, [p], Tally(1, 0, 0, 0)), w, e.from, "new", e.obj, {}, {})
  {
    hide NewSet, FirstNamed, Fill, Ids;
    assert [] + [p] == [p];
  }

  lemma NothingUnder(sets: seq<Held>, h: Held, k: RuleKind)
    requires h.id !in Ids(sets) && Rules(h, k) == []
    ensures NamesAt(sets + [h], h.id, k) == {}
  {
    assert forall g :: g in sets ==> g.id in Ids(sets);
  }

  lemma Unshaped()
    ensures !Shaped("Wired")
  {
    if Shaped("Wired") {
      var base, i :| 1 <= i < 100 && "Wired" == base + Suffix(i);
      SuffixShape(base, i);
    }
  }

  // --- beside a stranger's --------------------------------------------------------------

  lemma Strangers(s: Set)
    requires s.name == "Wired"
    ensures var sets := [HeldAs("d", DEFAULT), HeldAs("x", "Wired")];
            && UniqueIds(sets) && UniqueNames(sets) && DEFAULT in NamesOf(sets) && Importable([s])
            && "new" !in Ids(sets) && "Wired (imported)" !in NamesOf(sets)
            && SetsByName(sets) == map[DEFAULT := sets[0], "Wired" := sets[1]] && !Mine(sets[1])
  {
    Unshaped();
    var sets := [HeldAs("d", DEFAULT), HeldAs("x", "Wired")];
    assert sets[0] in sets && sets[1] in sets;
    assert |"Wired (imported)"| == 16 && |DEFAULT| == 7 && |"Wired"| == 5;
    assert UniqueIds(sets) && UniqueNames(sets);
    assert NamesOf(sets) == {DEFAULT, "Wired"};
    assert sets[..1] == [sets[0]] && sets[..1][..0] == [];
    assert SetsByName(sets[..1]) == map[DEFAULT := sets[0]];
    assert SetsByName(sets) == SetsByName(sets[..1])["Wired" := sets[1]];
    assert !Mine(sets[1]);
  }

  lemma ImportedBeside(s: Set, env: Env)
    requires s.name == "Wired" && !s.isDefault && CheckSet(s, env) == Fine
    ensures var sets := [HeldAs("d", DEFAULT), HeldAs("x", "Wired")];
            Preflight(sets, [s], env) == [Entry(0, Create, Beside("Wired (imported)"), "Wired (imported)", "", "", s)]
  {
    hide CheckSet, Mine, SetsByName;
    Strangers(s);
    var sets := [HeldAs("d", DEFAULT), HeldAs("x", "Wired")];
    assert "Wired" + Suffix(1) == "Wired (imported)";
    assert "Wired (imported)" !in SetsByName(sets);
    assert FreeName("Wired", SetsByName(sets)) == "Wired (imported)";
    assert [s][..0] == [];
  }

  // The set went in beside a stranger's, its rule was refused, and a later run,
  // which finds everything it needs, does not send the rule.
  lemma RuleBesideIsNotSent(day: Marker.Day) returns (c: Pass, d: Pass, p: Post, r: Rule)
    ensures Sound(c) && Resumes(c, d) && PutThere(c, p) && d.env == c.env && CheckSet(c.bundle[p.from], d.env) == Fine
    ensures r in c.bundle[p.from].authz && !r.isDefault && r.name !in NamesAt(d.sets, p.id, Authorization)
    ensures !exists q :: q in Final(d).log && RequestFor(q, p.from, p.id, Authorization, r)
  {
    r := RuleOf("Printers", "Permit");
    var s := SetOf([r]);
    var sets := [HeldAs("d", DEFAULT), HeldAs("x", "Wired")];
    var env := Knowing({"Permit"});
    CheckersAgree(s, env);
    Resolves("Printers", "Permit", {"Permit"});
    Strangers(s);
    ImportedBeside(s, env);
    c := Pass(sets, 0, [s], env, WorldOf(day));
    var e := Entry(0, Create, Beside("Wired (imported)"), "Wired (imported)", "", "", s);
    p := OnlyTheSetLands(c, e, day);
    d := c.(sets := Final(c).sets);
    NewSetFields(s, Target(e), "new", c.world);
    NothingUnder(sets, NewSet(s, Target(e), "new", c.world), Authorization);
    hide Sound, Final, NamesAt, CheckSet, RequestFor;
    LeftOutRuleIsSentExactly(c, d, p, Authorization, r);
  }

  // --- under its own name ---------------------------------------------------------------

  lemma NoStranger(s: Set)
    requires s.name == "Wired"
    ensures var sets := [HeldAs("d", DEFAULT)];
            && UniqueIds(sets) && UniqueNames(sets) && DEFAULT in NamesOf(sets) && Importable([s])
            && "new" !in Ids(sets) && "Wired" !in NamesOf(sets) && SetsByName(sets) == map[DEFAULT := sets[0]]
  {
    Unshaped();
    var sets := [HeldAs("d", DEFAULT)];
    assert sets[..0] == [];
    assert sets[0] in sets;
  }

  lemma ImportedUnderItsName(s: Set, env: Env)
    requires s.name == "Wired" && !s.isDefault && CheckSet(s, env) == Fine
    ensures Preflight([HeldAs("d", DEFAULT)], [s], env) == [Entry(0, Create, Plain, "", "", "", s)]
  {
    hide CheckSet, Mine, SetsByName;
    NoStranger(s);
    assert [s][..0] == [];
  }

  // The set went in under its own name and both its rules were refused. By the
  // later run one of them no longer resolves, and the other, which does, is not
  // sent either.
  lemma RuleOfBlockedSetIsNotSent(day: Marker.Day) returns (c: Pass, d: Pass, p: Post, r: Rule)
    ensures Sound(c) && Resumes(c, d) && PutThere(c, p) && p.name == c.bundle[p.from].name
    ensures r in c.bundle[p.from].authz && !r.isDefault && r.name !in NamesAt(d.sets, p.id, Authorization)
    ensures CheckRule(r, Authorization, d.env) == Fine
    ensures !exists q :: q in Final(d).log && RequestFor(q, p.from, p.id, Authorization, r)
  {
    r := RuleOf("Printers", "Permit");
    var other := RuleOf("Guests", "Portal");
    var s := SetOf([r, other]);
    var sets := [HeldAs("d", DEFAULT)];
    var env := Knowing({"Permit", "Portal"});
    BothResolve(s, r, other);
    NoStranger(s);
    ImportedUnderItsName(s, env);
    c := Pass(sets, 0, [s], env, WorldOf(day));
    var e := Entry(0, Create, Plain, "", "", "", s);
    p := OnlyTheSetLands(c, e, day);
    d := c.(sets := Final(c).sets, env := Knowing({"Permit"}));
    NewSetFields(s, Target(e), "new", c.world);
    NothingUnder(sets, NewSet(s, Target(e), "new", c.world), Authorization);
    hide Sound, Final, NamesAt, CheckSet, RequestFor, CheckRule;
    LeftOutRuleIsSentExactly(c, d, p, Authorization, r);
  }

  lemma Resolves(name: string, profile: string, known: set<string>)
    ensures CheckRule(RuleOf(name, profile), Authorization, Knowing(known)) ==
            if profile == "" || profile in known then Fine else NoProfile(profile)
  {
    assert [profile][1..] == [];
    assert FirstUnknown([profile][1..], known) == None;
  }

  lemma BothResolve(s: Set, r: Rule, other: Rule)
    requires r == RuleOf("Printers", "Permit") && other == RuleOf("Guests", "Portal") && s == SetOf([r, other])
    ensures CheckSet(s, Knowing({"Permit", "Portal"})) == Fine
    ensures CheckSet(s, Knowing({"Permit"})) != Fine
    ensures CheckRule(r, Authorization, Knowing({"Permit"})) == Fine
  {
    var all, fewer := Knowing({"Permit", "Portal"}), Knowing({"Permit"});
    CheckersAgree(s, all);
    CheckersAgree(s, fewer);
    Resolves("Printers", "Permit", {"Permit", "Portal"});
    Resolves("Guests", "Portal", {"Permit", "Portal"});
    Resolves("Printers", "Permit", {"Permit"});
    Resolves("Guests", "Portal", {"Permit"});
    hide CheckRule, CheckSet;
    assert s.authz[1] == other;
  }

  // --- a condition that never arrived -----------------------------------------------------

  function Reference(name: string): Json { Obj(map[ConditionType := Str(REFERENCE), Name := Str(name)]) }

  lemma ReferenceIs(name: string)
    requires name != ""
    ensures Clean(Reference(name)) == Reference(name)
    ensures !NamesHaveIds(Reference(name), map[])
    ensures forall env: Env :: name in env.conditions ==> Check(Reference(name), env) == Fine
  {
    var f: Object := map[ConditionType := Str(REFERENCE), Name := Str(name)];
    assert f - {Id, Link} == f;
  }

  // Pre-flight counted on the library condition "Corp"; its create was refused, and
  // the set that refers to it is sent, and lands, without an id for it.
  lemma SetLandsDangling(day: Marker.Day) returns (c: Pass, p: Post)
    ensures Sound(c) && PutThere(c, p) && PortableBundle(c.bundle) && CheckSet(c.bundle[p.from], c.env) == Fine
    ensures var tree := TreeOf(p, c.bundle, c.world);
            tree.Some? && !Grounded(tree.value, c.world.conditions)
  {
    var s := SetOf([]).(condition := Some(Reference("Corp")));
    var env := Knowing({}).(conditions := {"Corp"});
    ReferenceIs("Corp");
    CheckersAgree(s, env);
    hide Check, Clean, NamesHaveIds, Reference;
    NoStranger(s);
    ImportedUnderItsName(s, env);
    c := Pass([HeldAs("d", DEFAULT)], 0, [s], env, WorldOf(day));
    var e := Entry(0, Create, Plain, "", "", "", s);
    p := OnlyTheSetLands(c, e, day);
    hide Sound, Final, CheckSet, Grounded;
    SentTreesGroundedExactly(c, p);
  }
}
