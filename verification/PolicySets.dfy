// Policy sets: what pre-flight decides about each set of a bundle, and what
// apply sends for it - a new set, a set imported beside a stranger's, or the
// rules an existing set is missing.
module PolicySets {
  import opened Objects
  import opened Report
  import opened Conditions
  import Marker

  // --- bundle and target --------------------------------------------------------

  datatype RuleKind = Authentication | Authorization

  // A rule of a set. Every exported rule carries its inner rule object.
  datatype Rule = Rule(
    name: string, isDefault: bool, state: string, condition: Option<Json>,
    source: string, profiles: seq<string>, group: string)

  // A set of the bundle.
  datatype Set = Set(
    name: string, isDefault: bool, service: string, state: string, description: string,
    condition: Option<Json>, authn: seq<Rule>, authz: seq<Rule>)

  // A set of the target.
  datatype Held = Held(
    id: string, name: string, service: string, state: string, description: string,
    condition: Option<Json>, authn: seq<Rule>, authz: seq<Rule>)

  function Rules(h: Held, k: RuleKind): seq<Rule> {
    if k == Authentication then h.authn else h.authz
  }

  // Created by this tool.
  predicate Mine(h: Held) { Marker.Contains(h.description, Marker.PREFIX) }

  function SetsByName(sets: seq<Held>): map<string, Held> {
    if sets == [] then map[]
    else SetsByName(sets[..|sets| - 1])[sets[|sets| - 1].name := sets[|sets| - 1]]
  }

  const DEFAULT := "Default"

  // --- names for a set imported beside another ------------------------------------

  function Digit(n: nat): char
    requires n < 10
  {
    "0123456789"[n]
  }

  function Decimal(n: nat): string
    requires n < 100
  {
    if n < 10 then [Digit(n)] else [Digit(n / 10), Digit(n % 10)]
  }

  function Suffix(i: nat): string
    requires 1 <= i < 100
  {
    if i == 1 then " (imported)" else " (imported " + Decimal(i) + ")"
  }

  // The first unused candidate from the i-th on; "" when one of them is already a
  // set this tool imported, or none is left.
  function FreeNameFrom(name: string, existing: map<string, Held>, i: nat): string
    requires 1 <= i <= 100
    decreases 100 - i
  {
    if i == 100 then ""
    else if name + Suffix(i) !in existing then name + Suffix(i)
    else if Mine(existing[name + Suffix(i)]) then ""
    else FreeNameFrom(name, existing, i + 1)
  }

  function FreeName(name: string, existing: map<string, Held>): string { FreeNameFrom(name, existing, 1) }

  // --- references -------------------------------------------------------------------

  function CheckCondition(c: Option<Json>, env: Env): Finding {
    if c.Some? then Check(c.value, env) else Fine
  }

  function FirstUnknown(names: seq<string>, known: set<string>): Option<string> {
    if names == [] then None
    else if names[0] != "" && names[0] !in known then Some(names[0])
    else FirstUnknown(names[1..], known)
  }

  // One rule, as the merge of a set that cannot be refused whole checks it.
  function CheckRule(r: Rule, k: RuleKind, env: Env): Finding {
    if k == Authentication && r.source != "" && r.source !in env.stores then NoStore(r.source)
    else if k == Authorization && FirstUnknown(r.profiles, env.profiles).Some? then
      NoProfile(FirstUnknown(r.profiles, env.profiles).value)
    else if k == Authorization && r.group != "" && r.group !in env.groups then NoGroup(r.group)
    else CheckCondition(r.condition, env)
  }

  function CheckAuthnRules(rs: seq<Rule>, env: Env): Finding {
    if rs == [] then Fine
    else if rs[0].source != "" && rs[0].source !in env.stores then NoStore(rs[0].source)
    else if CheckCondition(rs[0].condition, env) != Fine then CheckCondition(rs[0].condition, env)
    else CheckAuthnRules(rs[1..], env)
  }

  function CheckAuthzRules(rs: seq<Rule>, env: Env): Finding {
    if rs == [] then Fine
    else match FirstUnknown(rs[0].profiles, env.profiles)
      case Some(p) => NoProfile(p)
      case None =>
        if rs[0].group != "" && rs[0].group !in env.groups then NoGroup(rs[0].group)
        else if CheckCondition(rs[0].condition, env) != Fine then CheckCondition(rs[0].condition, env)
        else CheckAuthzRules(rs[1..], env)
  }

  // A whole set, with everything in it.
  function CheckSet(s: Set, env: Env): Finding {
    if s.service != "" && s.service !in env.services then NoService(s.service)
    else if CheckCondition(s.condition, env) != Fine then CheckCondition(s.condition, env)
    else if CheckAuthnRules(s.authn, env) != Fine then CheckAuthnRules(s.authn, env)
    else CheckAuthzRules(s.authz, env)
  }

  lemma {:induction false} AuthnAgree(rs: seq<Rule>, env: Env)
    ensures CheckAuthnRules(rs, env) == Fine <==>
            forall i :: 0 <= i < |rs| ==> CheckRule(rs[i], Authentication, env) == Fine
  {
    if rs != [] {
      AuthnAgree(rs[1..], env);
      assert forall i :: 0 < i < |rs| ==> rs[i] == rs[1..][i - 1];
    }
  }

  lemma {:induction false} AuthzAgree(rs: seq<Rule>, env: Env)
    ensures CheckAuthzRules(rs, env) == Fine <==>
            forall i :: 0 <= i < |rs| ==> CheckRule(rs[i], Authorization, env) == Fine
  {
    if rs != [] {
      AuthzAgree(rs[1..], env);
      assert forall i :: 0 < i < |rs| ==> rs[i] == rs[1..][i - 1];
    }
  }

  // The two checkers agree: a set is accepted whole exactly when its service and
  // its own tree resolve and each of its rules would be accepted on its own.
  lemma CheckersAgree(s: Set, env: Env)
    ensures CheckSet(s, env) == Fine <==>
            && (s.service != "" ==> s.service in env.services)
            && CheckCondition(s.condition, env) == Fine
            && (forall i :: 0 <= i < |s.authn| ==> CheckRule(s.authn[i], Authentication, env) == Fine)
            && (forall i :: 0 <= i < |s.authz| ==> CheckRule(s.authz[i], Authorization, env) == Fine)
  {
    AuthnAgree(s.authn, env);
    AuthzAgree(s.authz, env);
  }

  // --- pre-flight ---------------------------------------------------------------------

  datatype Why =
    | Plain
    | Nameless
    | DefaultMerged
    | AlreadyImported
    | Beside(target: string)
    | Unresolved(finding: Finding)
    | MissingRules(names: seq<string>)

  // An entry of the report. `from` is the bundle set it is about; the three
  // fields after it are what pre-flight stores in the object for apply.
  datatype Entry = Entry(
    from: nat, action: Action, why: Why,
    targetName: string, mergeId: string, defaultId: string, obj: Set)

  function RuleNames(h: Held, k: RuleKind): set<string> {
    set r | r in Rules(h, k) :: r.name
  }

  // The rules of the target set with this id, in both kinds; none when there is
  // no such set.
  function NamesAt(sets: seq<Held>, id: string, k: RuleKind): set<string> {
    set h, r | h in sets && h.id == id && r in Rules(h, k) :: r.name
  }

  // The rules still to be added, in order: not default, not there, resolvable.
  function Missing(rs: seq<Rule>, k: RuleKind, have: set<string>, env: Env): seq<string> {
    if rs == [] then []
    else
      var r := rs[0];
      (if !r.isDefault && r.name !in have && CheckRule(r, k, env) == Fine then [r.name] else [])
      + Missing(rs[1..], k, have, env)
  }

  function Kept(rs: seq<Rule>, k: RuleKind, env: Env): seq<Rule> {
    if rs == [] then []
    else (if CheckRule(rs[0], k, env) == Fine then [rs[0]] else []) + Kept(rs[1..], k, env)
  }

  function KeptSet(s: Set, env: Env): Set {
    s.(authn := Kept(s.authn, Authentication, env), authz := Kept(s.authz, Authorization, env))
  }

  // The verdict by name alone.
  function ByName(sets: seq<Held>, i: nat, s: Set): Entry {
    var existing := SetsByName(sets);
    if s.name == "" then Entry(i, Blocked, Nameless, "", "", "", s)
    else if s.isDefault then Entry(i, Skip, DefaultMerged, "", "", "", s)
    else if s.name !in existing then Entry(i, Create, Plain, "", "", "", s)
    else if Mine(existing[s.name]) then Entry(i, Skip, AlreadyImported, "", existing[s.name].id, "", s)
    else
      var free := FreeName(s.name, existing);
      if free == "" then Entry(i, Skip, AlreadyImported, "", "", "", s)
      else Entry(i, Create, Beside(free), free, "", "", s)
  }

  // With the references checked, and the Default set's rules filtered.
  function Checked(sets: seq<Held>, i: nat, s: Set, env: Env): Entry {
    var e := ByName(sets, i, s);
    if s.isDefault then
      var existing := SetsByName(sets);
      e.(obj := KeptSet(s, env), defaultId := if DEFAULT in existing then existing[DEFAULT].id else "")
    else if e.action != Blocked && CheckSet(s, env) != Fine then
      e.(action := Blocked, why := Unresolved(CheckSet(s, env)))
    else e
  }

  function MissingAt(sets: seq<Held>, id: string, s: Set, env: Env): seq<string> {
    Missing(s.authn, Authentication, NamesAt(sets, id, Authentication), env)
    + Missing(s.authz, Authorization, NamesAt(sets, id, Authorization), env)
  }

  // The entries of one bundle set: its own, after the one that adds the rules an
  // earlier import left out, if there are any.
  function Entries(sets: seq<Held>, i: nat, s: Set, env: Env): seq<Entry> {
    var e := Checked(sets, i, s, env);
    if e.action == Skip && e.mergeId != "" && MissingAt(sets, e.mergeId, s, env) != [] then
      [e.(action := Create, why := MissingRules(MissingAt(sets, e.mergeId, s, env))), e]
    else [e]
  }

  function Preflight(sets: seq<Held>, bundle: seq<Set>, env: Env): seq<Entry> {
    if bundle == [] then []
    else Preflight(sets, bundle[..|bundle| - 1], env) + Entries(sets, |bundle| - 1, bundle[|bundle| - 1], env)
  }

  // --- apply ----------------------------------------------------------------------------

  datatype Answer = Accept(id: string) | Duplicate | Refuse

  datatype Reply = Landed | AlreadyThere | Refused

  // What the run depends on: the target's answers by request number, whether it
  // could be listed again after a set landed, whether the rules of a set could be
  // listed when that request was next, the ids of its conditions, whether
  // the source's state is kept, the day, and the rules it gives a new set itself.
  datatype World = World(
    answers: nat -> Answer, relists: nat -> bool, lists: (nat, RuleKind) -> bool, conditions: map<string, string>,
    keepState: bool, day: Marker.Day, factoryAuthn: seq<Rule>, factoryAuthz: seq<Rule>)

  // What was sent, for which bundle set, and what became of it.
  datatype Post =
    | SetPost(from: nat, name: string, id: string, reply: Reply, read: bool)
    | RulePost(from: nat, id: string, kind: RuleKind, rule: Rule, reply: Reply)

  datatype Run = Run(sets: seq<Held>, asked: nat, log: seq<Post>, tally: Tally)

  function Ids(sets: seq<Held>): set<string> { set h | h in sets :: h.id }

  function RewriteCondition(c: Option<Json>, w: World): Option<Json> {
    if c.Some? then Some(Rewrite(c.value, w.conditions)) else None
  }

  function StateOf(state: string, w: World): string { if w.keepState then state else "disabled" }

  function PostedRule(r: Rule, w: World): Rule {
    r.(condition := RewriteCondition(r.condition, w), state := StateOf(r.state, w))
  }

  // A new set as the target stores it.
  function NewSet(s: Set, name: string, id: string, w: World): Held {
    Held(id, name, s.service, StateOf(s.state, w), Marker.Tag(s.description, w.day),
         RewriteCondition(s.condition, w), w.factoryAuthn, w.factoryAuthz)
  }

  function AddTo(h: Held, k: RuleKind, r: Rule): Held {
    if k == Authentication then h.(authn := h.authn + [r]) else h.(authz := h.authz + [r])
  }

  function AddRule(sets: seq<Held>, id: string, k: RuleKind, r: Rule): seq<Held> {
    seq(|sets|, i requires 0 <= i < |sets| => if sets[i].id == id then AddTo(sets[i], k, r) else sets[i])
  }

  function RuleReply(a: Answer): Reply {
    match a case Accept(_) => Landed case Duplicate => AlreadyThere case Refuse => Refused
  }

  // A refused rule is counted as failed by the create and again by its caller.
  function RuleTally(t: Tally, r: Reply): Tally {
    match r
    case Landed => t.(created := t.created + 1)
    case AlreadyThere => t.(skipped := t.skipped + 1)
    case Refused => t.(failed := t.failed + 2)
  }

  function SendRule(s: Run, w: World, from: nat, id: string, k: RuleKind, r: Rule): Run {
    var reply := RuleReply(w.answers(s.asked));
    Run(if reply == Landed then AddRule(s.sets, id, k, PostedRule(r, w)) else s.sets,
        s.asked + 1, s.log + [RulePost(from, id, k, r, reply)], RuleTally(s.tally, reply))
  }

  // One rule: left alone when the set had one of its name, never sent when it is
  // the set's own default.
  function StepRule(s: Run, w: World, from: nat, id: string, k: RuleKind, r: Rule, existing: set<string>): Run {
    if r.name in existing then s.(tally := s.tally.(skipped := s.tally.skipped + 1))
    else if r.isDefault then s
    else SendRule(s, w, from, id, k, r)
  }

  function SendRules(s: Run, w: World, from: nat, id: string, k: RuleKind, rs: seq<Rule>, existing: set<string>): Run {
    if rs == [] then s
    else
      var n := |rs| - 1;
      StepRule(SendRules(s, w, from, id, k, rs[..n], existing), w, from, id, k, rs[n], existing)
  }

  // Both lists of rules into the set with this id.
  function Fill(s: Run, w: World, from: nat, id: string, obj: Set, haveAuthn: set<string>, haveAuthz: set<string>)
    : Run {
    var t := SendRules(s, w, from, id, Authentication, obj.authn, haveAuthn);
    SendRules(t, w, from, id, Authorization, obj.authz, haveAuthz)
  }

  function SetReply(sets: seq<Held>, a: Answer): Reply {
    match a
    case Accept(id) => if id != "" && id !in Ids(sets) then Landed else Refused
    case Duplicate => AlreadyThere
    case Refuse => Refused
  }

  // The id of the first set of that name.
  function FirstNamed(sets: seq<Held>, name: string): string {
    if sets == [] then ""
    else if sets[0].name == name then sets[0].id
    else FirstNamed(sets[1..], name)
  }

  function CreateSet(s: Run, w: World, e: Entry): Run {
    var name := if e.targetName != "" then e.targetName else e.obj.name;
    var a := w.answers(s.asked);
    var reply := SetReply(s.sets, a);
    var read := w.relists(s.asked);
    var id := if reply == Landed then a.id else "";
    var log := s.log + [SetPost(e.from, name, id, reply, read)];
    if reply == AlreadyThere then
      s.(asked := s.asked + 1, log := log, tally := s.tally.(skipped := s.tally.skipped + 1))
    else if reply == Refused then
      s.(asked := s.asked + 1, log := log, tally := s.tally.(failed := s.tally.failed + 1))
    else
      var sets := s.sets + [NewSet(e.obj, name, id, w)];
      var found := FirstNamed(sets, name);
      if !read || found == "" then
        Run(sets, s.asked + 1, log, s.tally.(failed := s.tally.failed + 1))
      else
        Fill(Run(sets, s.asked + 1, log, s.tally.(created := s.tally.created + 1)), w, e.from, found, e.obj, {}, {})
  }

  // The rules a set is known to have when it is merged into. A list that cannot be
  // read counts as empty.
  function Listed(s: Run, w: World, id: string, k: RuleKind): (names: set<string>)
    ensures names <= NamesAt(s.sets, id, k)
  {
    if w.lists(s.asked, k) then NamesAt(s.sets, id, k) else {}
  }

  function Merge(s: Run, w: World, e: Entry, id: string): Run {
    Fill(s, w, e.from, id, e.obj, Listed(s, w, id, Authentication), Listed(s, w, id, Authorization))
  }

  // One entry of the report.
  function Step(s: Run, w: World, e: Entry): Run {
    var mergeDefault := e.action == Skip && e.obj.isDefault;
    var mergeMine := e.action == Create && e.mergeId != "";
    if e.action != Create && !mergeDefault then
      if e.action == Skip then s.(tally := s.tally.(skipped := s.tally.skipped + 1))
      else s.(tally := s.tally.(blocked := s.tally.blocked + 1))
    else
      var t := if mergeDefault then s.(tally := s.tally.(skipped := s.tally.skipped + 1)) else s;
      if mergeMine then Merge(t, w, e, e.mergeId)
      else if e.obj.isDefault then
        if e.defaultId == "" then t.(tally := t.tally.(failed := t.tally.failed + 1))
        else Merge(t, w, e, e.defaultId)
      else CreateSet(t, w, e)
  }

  function Start(sets: seq<Held>, asked: nat): Run { Run(sets, asked, [], Tally(0, 0, 0, 0)) }

  function Apply(s: Run, w: World, report: seq<Entry>): Run {
    if report == [] then s
    else Step(Apply(s, w, report[..|report| - 1]), w, report[|report| - 1])
  }
}
