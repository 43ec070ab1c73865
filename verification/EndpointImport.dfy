// The endpoint passes as the program performs them: references exchanged in
// place, a deployment that stores what it accepts, and the export, pre-flight and
// apply loops. Each is proved to do what Endpoints specifies.
module EndpointImport {
  import opened Objects
  import opened Report
  import opened TrustSecStore
  import opened Endpoints
  import opened Sorting

  // An object under modification.
  class Draft {
    var fields: Object

    constructor (o: Object)
      ensures fields == o
    {
      fields := o;
    }

    // Replaces the reference under `from` by its entry in the table, under `to`.
    method Exchange(from: Key, to: Key, table: map<string, string>) returns (ok: bool)
      modifies this
      ensures ok <==> Exchanged(old(fields), from, to, table).Some?
      ensures fields == if ok then Exchanged(old(fields), from, to, table).value else old(fields)
    {
      var value := Text(fields, from);
      if value == "" {
        fields := fields - {from};
        return true;
      }
      if value !in table {
        return false;
      }
      fields := fields - {from};
      fields := fields[to := Str(table[value])];
      return true;
    }
  }

  class Deployment {
    var target: Target
    var asked: nat
    const answers: nat -> Answer

    constructor (t: Target, answers: nat -> Answer)
      ensures target == t && asked == 0 && this.answers == answers
    {
      target, asked := t, 0;
      this.answers := answers;
    }

    method Create(family: Family, body: Object) returns (reply: Reply)
      modifies this
      ensures reply == ReplyOf(old(target), answers(old(asked)))
      ensures target == Extended(old(target), family, body, answers(old(asked)))
      ensures asked == old(asked) + 1
    {
      var a := answers(asked);
      reply := ReplyOf(target, a);
      target := Extended(target, family, body, a);
      asked := asked + 1;
    }
  }

  // --- export -----------------------------------------------------------------------

  method NamesOf(objs: seq<Object>) returns (m: map<string, string>)
    ensures m == NameById(objs)
  {
    m := map[];
    for i := 0 to |objs|
      invariant m == NameById(objs[..i])
    {
      assert objs[..i + 1][..i] == objs[..i];
      m := m[Text(objs[i], Id) := Text(objs[i], Name)];
    }
    assert objs[..|objs|] == objs;
  }

  // The groups' names by id. A group without an id has no entry.
  method GroupNames(objs: seq<Object>) returns (m: map<string, string>)
    ensures m == NameById(objs) - {""}
  {
    m := map[];
    for i := 0 to |objs|
      invariant m == NameById(objs[..i]) - {""}
    {
      assert objs[..i + 1][..i] == objs[..i];
      if Text(objs[i], Id) != "" {
        m := m[Text(objs[i], Id) := Text(objs[i], Name)];
      }
    }
    assert objs[..|objs|] == objs;
  }

  method ExportOne(e: Object, groups: map<string, string>, profiles: map<string, string>) returns (out: Option<Object>)
    ensures out == Exported(e, groups, profiles)
  {
    hide Exchanged, Truthy, StripLocal, MacOf, Text;
    var mac := MacOf(e);
    if mac == "" {
      return None;
    }
    var draft := new Draft(e);
    var ok := draft.Exchange(GroupId, GroupName, groups);
    if !ok {
      return None;
    }
    if Truthy(draft.fields, StaticProfile) {
      ok := draft.Exchange(ProfileId, ProfileName, profiles);
      if !ok {
        return None;
      }
    } else {
      draft.fields := draft.fields - {ProfileId, Profile};
    }
    draft.fields := draft.fields[Mac := Str(mac)];
    out := Some(StripLocal(draft.fields));
  }

  // The endpoints of the wanted groups that an operator assigned, carried by name
  // and sorted by MAC. When the profiles could not be read, none is known.
  method ExportEndpoints(s: Target, profilesRead: bool, wanted: seq<string>) returns (gs: seq<Object>, es: seq<Object>)
    ensures gs == ExportedGroups(s.groups, wanted)
    ensures multiset(es) == multiset(ExportedAll(s.endpoints, NameById(s.groups) - {""},
              if profilesRead then NameById(s.profiles) else map[], wanted))
    ensures InOrder(es, MacOf)
  {
    hide Exported, ExportedGroup, Selected, IsStatic, Text, NameById, MacOf, InOrder, Sorted;
    var groups := GroupNames(s.groups);
    gs := [];
    for i := 0 to |s.groups|
      invariant gs == ExportedGroups(s.groups[..i], wanted)
    {
      assert s.groups[..i + 1][..i] == s.groups[..i];
      var g := s.groups[i];
      if Text(g, Name) !in wanted { continue; }
      gs := gs + [ExportedGroup(g)];
    }
    assert s.groups[..|s.groups|] == s.groups;
    var profiles: map<string, string> := map[];
    if profilesRead { profiles := NamesOf(s.profiles); }
    es := [];
    for i := 0 to |s.endpoints|
      invariant es == ExportedAll(s.endpoints[..i], groups, profiles, wanted)
    {
      assert s.endpoints[..i + 1][..i] == s.endpoints[..i];
      var e := s.endpoints[i];
      if !Selected(e, groups, wanted) { continue; }
      if !IsStatic(e) { continue; }
      var o := ExportOne(e, groups, profiles);
      if o.Some? { es := es + [o.value]; }
    }
    assert s.endpoints[..|s.endpoints|] == s.endpoints;
    SortedIs(es, MacOf);
    es := Sorted(es, MacOf);
  }

  // --- pre-flight -------------------------------------------------------------------

  method DecideGroups(t: Target, gs: seq<Object>, r: PreflightReport<Note>) returns (willExist: set<string>)
    requires r.Valid()
    modifies r
    ensures r.Valid() && r.items == old(r.items) + GroupVerdicts(t, gs)
    ensures willExist == WillExist(t, gs)
  {
    hide GroupVerdict, NamesIn, IdByName, GroupVerdicts, ToCreate;
    var ids := StubsByName(t.groups);
    IndexKeys(t.groups);
    willExist := ids.Keys;
    NoGroups(t);
    for i := 0 to |gs|
      invariant r.Valid() && r.items == old(r.items) + GroupVerdicts(t, gs[..i])
      invariant willExist == NamesIn(t.groups) + ToCreate(GroupVerdicts(t, gs[..i]))
    {
      var v := DecideGroup(ids, t, gs[i]);
      OneMoreGroup(t, gs, i);
      if v.action == Create { willExist := willExist + {v.name}; }
      r.Add(v);
    }
    assert gs[..|gs|] == gs;
  }

  lemma NoGroups(t: Target)
    ensures GroupVerdicts(t, []) == [] && ToCreate([]) == {}
  {
  }

  lemma OneMoreGroup(t: Target, gs: seq<Object>, i: nat)
    requires i < |gs|
    ensures var v := GroupVerdict(t, gs[i]);
            && GroupVerdicts(t, gs[..i + 1]) == GroupVerdicts(t, gs[..i]) + [v]
            && ToCreate(GroupVerdicts(t, gs[..i + 1]))
                 == ToCreate(GroupVerdicts(t, gs[..i])) + if v.action == Create then {v.name} else {}
  {
    hide GroupVerdict;
    var v := GroupVerdict(t, gs[i]);
    var vs := GroupVerdicts(t, gs[..i]);
    assert GroupVerdicts(t, gs[..i + 1]) == vs + [v];
    assert ToCreate(vs + [v]) == ToCreate(vs) + if v.action == Create then {v.name} else {};
  }

  method DecideGroup(ids: map<string, string>, ghost t: Target, g: Object) returns (v: Verdict)
    requires ids == IdByName(t.groups)
    ensures v == GroupVerdict(t, g)
  {
    var name := Text(g, Name);
    if name == "" {
      v := Item(name, Blocked, Note(Groups, Nameless), g);
    } else if Has(ids, name) {
      v := Item(name, Skip, Note(Groups, Exists), g);
    } else {
      v := Item(name, Create, Note(Groups, Clear), g);
    }
  }

  method DecideMembers(t: Target, willExist: set<string>, es: seq<Object>, r: PreflightReport<Note>)
    requires r.Valid()
    modifies r
    ensures r.Valid() && r.items == old(r.items) + MemberVerdicts(t, willExist, es)
  {
    hide MemberVerdict, MacsIn, IdByName;
    var profiles := StubsByName(t.profiles);
    var macs := MacsIn(t.endpoints);
    for i := 0 to |es|
      invariant r.Valid() && r.items == old(r.items) + MemberVerdicts(t, willExist, es[..i])
    {
      var v := DecideMember(profiles, macs, willExist, t, es[i]);
      assert MemberVerdicts(t, willExist, es[..i + 1]) == MemberVerdicts(t, willExist, es[..i]) + [v];
      r.Add(v);
    }
    assert es[..|es|] == es;
  }

  method DecideMember(profiles: map<string, string>, macs: set<string>, willExist: set<string>, ghost t: Target,
                      e: Object)
    returns (v: Verdict)
    requires profiles == IdByName(t.profiles) && macs == MacsIn(t.endpoints)
    ensures v == MemberVerdict(t, willExist, e)
  {
    hide MacsIn, IdByName, MacOf;
    var mac, group, profile := MacOf(e), Text(e, GroupName), Text(e, ProfileName);
    if mac == "" {
      v := Item(mac, Blocked, Note(Members, Nameless), e);
    } else if mac in macs {
      v := Item(mac, Skip, Note(Members, Exists), e);
    } else if group != "" && group !in willExist {
      v := Item(mac, Blocked, Note(Members, NoSuchGroup(group)), e);
    } else if profile != "" && !Has(profiles, profile) {
      v := Item(mac, Blocked, Note(Members, NoSuchProfile(profile)), e);
    } else {
      v := Item(mac, Create, Note(Members, Clear), e);
    }
  }

  method PreflightEndpoints(d: Deployment, gs: seq<Object>, es: seq<Object>, r: PreflightReport<Note>)
    requires r.Valid()
    modifies r
    ensures r.Valid() && r.items == old(r.items) + Preflight(d.target, gs, es)
  {
    hide GroupVerdicts, MemberVerdicts, WillExist;
    var willExist := DecideGroups(d.target, gs, r);
    if es == [] {
      NoMembers(d.target, willExist);
      return;
    }
    DecideMembers(d.target, willExist, es, r);
  }

  lemma NoMembers(t: Target, groups: set<string>)
    ensures MemberVerdicts(t, groups, []) == []
  {
  }

  // --- apply ------------------------------------------------------------------------

  method Account(reply: Reply, res: ImportResult)
    modifies res
    ensures res.View() == Plus(old(res.View()), Tallied(reply))
  {
    match reply {
      case Landed => res.created := res.created + 1;
      case AlreadyThere => res.skipped := res.skipped + 1;
      case Refused => res.failed := res.failed + 1;
    }
  }

  function Tallied(reply: Reply): Tally {
    match reply
    case Landed => Tally(1, 0, 0, 0)
    case AlreadyThere => Tally(0, 1, 0, 0)
    case Refused => Tally(0, 0, 0, 1)
  }

  // Where a pass over one family stands.
  ghost predicate At(d: Deployment, res: ImportResult, before: Tally, run: Run)
    reads d, res
  {
    d.target == run.target && d.asked == run.asked && res.View() == Plus(before, run.tally)
  }

  lemma ClearedNext(report: seq<Verdict>, family: Family, i: nat)
    requires i < |report|
    ensures var v := report[i];
            Cleared(report[..i + 1], family)
              == if v.reason.family == family && v.action == Create then Cleared(report[..i], family) + [v.obj]
                 else Cleared(report[..i], family)
  {
    assert report[..i + 1][..i] == report[..i];
  }

  method ApplyGroups(d: Deployment, report: seq<Verdict>, res: ImportResult)
    modifies d, res
    ensures At(d, res, old(res.View()),
               GroupPass(Begin(old(d.target), old(d.asked)), d.answers, Cleared(report, Groups)))
  {
    hide Extended, ReplyOf, Compact, Cleared;
    ghost var start, before := Begin(d.target, d.asked), res.View();
    NoneCleared(Groups);
    for i := 0 to |report|
      invariant At(d, res, before, GroupPass(start, d.answers, Cleared(report[..i], Groups)))
    {
      ClearedNext(report, Groups, i);
      var it := report[i];
      if it.reason.family != Groups || it.action != Create { continue; }
      GroupNext(start, d.answers, Cleared(report[..i], Groups), it.obj);
      var reply := d.Create(Groups, Compact(it.obj));
      Account(reply, res);
    }
    assert report[..|report|] == report;
  }

  lemma NoneCleared(family: Family)
    ensures Cleared([], family) == []
  {
  }

  lemma GroupNext(s: Run, answers: nat -> Answer, gs: seq<Object>, g: Object)
    ensures GroupPass(s, answers, gs + [g]) == Send(GroupPass(s, answers, gs), answers, Groups, g, Compact(g))
  {
    assert (gs + [g])[..|gs|] == gs;
  }

  lemma MemberNext(s: Run, answers: nat -> Answer, tables: Tables, es: seq<Object>, e: Object)
    ensures MemberPass(s, answers, tables, es + [e]) ==
              MemberStep(MemberPass(s, answers, tables, es), answers, tables, e)
  {
    assert (es + [e])[..|es|] == es;
  }

  method ResolveMember(e: Object, tables: Tables) returns (body: Option<Object>)
    ensures body == Resolved(e, tables)
  {
    hide Exchanged;
    var draft := new Draft(e - OPENAPI_ONLY);
    var ok := draft.Exchange(GroupName, GroupId, tables.groups);
    if !ok {
      return None;
    }
    ok := draft.Exchange(ProfileName, ProfileId, tables.profiles);
    if !ok {
      return None;
    }
    return Some(draft.fields);
  }

  method ApplyMember(d: Deployment, e: Object, tables: Tables, res: ImportResult, ghost before: Tally, ghost run: Run)
    requires At(d, res, before, run)
    modifies d, res
    ensures At(d, res, before, MemberStep(run, d.answers, tables, e))
  {
    hide Extended, ReplyOf, Compact, Resolved, Missing;
    var body := ResolveMember(e, tables);
    if body.None? {
      res.failed := res.failed + 1;
      return;
    }
    var reply := d.Create(Members, Compact(body.value));
    Account(reply, res);
  }

  method ApplyMembers(d: Deployment, report: seq<Verdict>, res: ImportResult)
    modifies d, res
    ensures At(d, res, old(res.View()),
               MemberPass(Begin(old(d.target), old(d.asked)), d.answers, TablesOf(old(d.target)), Cleared(report,
                   Members)))
  {
    hide Cleared, IdByName, MemberStep;
    ghost var start, before := Begin(d.target, d.asked), res.View();
    var groups := StubsByName(d.target.groups);
    var profiles := StubsByName(d.target.profiles);
    var tables := Tables(groups, profiles);
    NoneCleared(Members);
    for i := 0 to |report|
      invariant At(d, res, before, MemberPass(start, d.answers, tables, Cleared(report[..i], Members)))
    {
      ClearedNext(report, Members, i);
      var it := report[i];
      if it.reason.family != Members || it.action != Create { continue; }
      MemberNext(start, d.answers, tables, Cleared(report[..i], Members), it.obj);
      ApplyMember(d, it.obj, tables, res, before, MemberPass(start, d.answers, tables, Cleared(report[..i], Members)));
    }
    assert report[..|report|] == report;
  }

  // Groups, then the endpoints against the ids the target then lists. When those
  // cannot be read, the import stops there.
  method ApplyEndpoints(d: Deployment, report: seq<Verdict>, relists: bool, res: ImportResult) returns (ok: bool)
    modifies d, res
    ensures ok <==> relists || Cleared(report, Members) == []
    ensures var a := Apply(old(d.target), old(d.asked), d.answers, report);
            if ok then
              && d.target == a.members.target
              && res.View() == Plus(Plus(old(res.View()), a.groups.tally), a.members.tally)
            else d.target == a.groups.target && res.View() == Plus(old(res.View()), a.groups.tally)
  {
    hide GroupPass, MemberPass, Cleared, TablesOf;
    ghost var start, asked := d.target, d.asked;
    ApplyGroups(d, report, res);
    ghost var g := Apply(start, asked, d.answers, report).groups;
    if Cleared(report, Members) == [] {
      NoMembersSent(Begin(g.target, g.asked), d.answers, TablesOf(g.target));
      return true;
    }
    if !relists {
      return false;
    }
    ApplyMembers(d, report, res);
    return true;
  }

  lemma NoMembersSent(s: Run, answers: nat -> Answer, tables: Tables)
    ensures MemberPass(s, answers, tables, []) == s
  {
  }
}
