// What an import of endpoints guarantees, whatever creates the target refuses.
module EndpointTheorems {
  import opened Objects
  import opened Report
  import opened TrustSecStore
  import opened Endpoints
  import opened Segments
  import Marker

  // The group and the profile an endpoint of a deployment is in, by name.
  function GroupOf(t: Target, e: Object): string { Resolve(t.groups, [], Text(e, GroupId)) }
  function ProfileOf(t: Target, e: Object): string { Resolve(t.profiles, [], Text(e, ProfileId)) }

  // --- what a pass keeps ------------------------------------------------------------

  // Nothing already there is changed, and what is added is under a new id.
  ghost predicate Later(a: Target, b: Target) {
    && a.groups <= b.groups && a.endpoints <= b.endpoints && a.profiles == b.profiles
    && (forall g :: g in b.groups[|a.groups|..] ==> Mintable(a, Text(g, Id)))
    && (Sound(a) ==> Sound(b))
  }

  lemma LaterRefl(t: Target)
    ensures Later(t, t)
  {
  }

  lemma MintableBefore(a: Target, b: Target, id: string)
    requires Later(a, b) && Mintable(b, id)
    ensures Mintable(a, id)
  {
    assert forall g :: g in a.groups ==> g in b.groups;
    assert forall e :: e in a.endpoints ==> e in b.endpoints;
  }

  lemma LaterTrans(a: Target, b: Target, c: Target)
    requires Later(a, b) && Later(b, c)
    ensures Later(a, c)
  {
    hide Sound, Mintable;
    forall g | g in c.groups[|a.groups|..]
      ensures Mintable(a, Text(g, Id))
    {
      var i :| |a.groups| <= i < |c.groups| && c.groups[i] == g;
      if i < |b.groups| {
        assert b.groups[|a.groups|..][i - |a.groups|] == g;
      } else {
        assert c.groups[|b.groups|..][i - |b.groups|] == g;
        MintableBefore(a, b, Text(g, Id));
      }
    }
  }

  lemma OneMore(t: Target, family: Family, body: Object, a: Answer)
    ensures Later(t, Extended(t, family, body, a))
  {
    var u := Extended(t, family, body, a);
    if u.groups != t.groups {
      var g := Stored(body, a.id);
      assert u.groups[|t.groups|..] == [g];
      forall i | 0 <= i < |t.groups|
        ensures Text(t.groups[i], Id) != a.id
      {
        assert t.groups[i] in t.groups;
      }
    }
  }

  lemma {:induction false} GroupPassGrows(s: Run, answers: nat -> Answer, gs: seq<Object>)
    ensures Later(s.target, GroupPass(s, answers, gs).target)
    ensures GroupPass(s, answers, gs).target.endpoints == s.target.endpoints
  {
    hide Later;
    if gs == [] {
      LaterRefl(s.target);
    } else {
      var n := |gs| - 1;
      var m := GroupPass(s, answers, gs[..n]);
      GroupPassGrows(s, answers, gs[..n]);
      OneMore(m.target, Groups, Compact(gs[n]), answers(m.asked));
      LaterTrans(s.target, m.target, GroupPass(s, answers, gs).target);
    }
  }

  lemma MemberStepGrows(s: Run, answers: nat -> Answer, tables: Tables, e: Object)
    ensures Later(s.target, MemberStep(s, answers, tables, e).target)
    ensures MemberStep(s, answers, tables, e).target.groups == s.target.groups
  {
    hide Later, Resolved;
    match Resolved(e, tables) {
      case None => LaterRefl(s.target);
      case Some(body) => OneMore(s.target, Members, Compact(body), answers(s.asked));
    }
  }

  lemma {:induction false} MemberPassGrows(s: Run, answers: nat -> Answer, tables: Tables, es: seq<Object>)
    ensures Later(s.target, MemberPass(s, answers, tables, es).target)
    ensures MemberPass(s, answers, tables, es).target.groups == s.target.groups
  {
    hide Later, MemberStep;
    if es == [] {
      LaterRefl(s.target);
    } else {
      var n := |es| - 1;
      var m := MemberPass(s, answers, tables, es[..n]);
      MemberPassGrows(s, answers, tables, es[..n]);
      MemberStepGrows(m, answers, tables, es[n]);
      LaterTrans(s.target, m.target, MemberPass(s, answers, tables, es).target);
    }
  }

  lemma ReferencesStay(t: Target, u: Target, e: Object)
    requires Later(t, u) && e in t.endpoints
    ensures e in u.endpoints && GroupOf(u, e) == GroupOf(t, e) && ProfileOf(u, e) == ProfileOf(t, e)
  {
    hide Mintable, Sound;
    var more := u.groups[|t.groups|..];
    assert u.groups == t.groups + more;
    NoneRefersToNew(t, more, e);
    hide HoldsId, Text;
    NameByIdGrows(t.groups, more, Text(e, GroupId));
  }

  // An import adds, and what the target's own endpoints refer to is what they
  // referred to before.
  lemma OwnEndpointsKeepTheirGroup(t: Target, asked: nat, answers: nat -> Answer, report: seq<Verdict>, e: Object)
    requires e in t.endpoints
    ensures var u := Apply(t, asked, answers, report).members.target;
            Later(t, u) && e in u.endpoints && GroupOf(u, e) == GroupOf(t, e) && ProfileOf(u, e) == ProfileOf(t, e)
  {
    Reached(t, asked, answers, report);
    hide *;
    ReferencesStay(t, Apply(t, asked, answers, report).members.target, e);
  }

  lemma NoneRefersToNew(t: Target, more: seq<Object>, e: Object)
    requires e in t.endpoints && forall g :: g in more ==> Mintable(t, Text(g, Id))
    ensures !HoldsId(more, Text(e, GroupId))
  {
    forall g | g in more
      ensures Text(g, Id) != Text(e, GroupId)
    {
      assert Mintable(t, Text(g, Id));
    }
  }

  lemma Reached(t: Target, asked: nat, answers: nat -> Answer, report: seq<Verdict>)
    ensures var a := Apply(t, asked, answers, report);
            && Later(t, a.groups.target) && Later(a.groups.target, a.members.target) && Later(t, a.members.target)
            && a.members.target.groups == a.groups.target.groups && a.groups.target.endpoints == t.endpoints
  {
    hide Later, GroupPass, MemberPass;
    var a := Apply(t, asked, answers, report);
    GroupPassGrows(Begin(t, asked), answers, Cleared(report, Groups));
    MemberPassGrows(Begin(a.groups.target, a.groups.asked), answers, TablesOf(a.groups.target),
                    Cleared(report, Members));
    LaterTrans(t, a.groups.target, a.members.target);
  }

  // --- references on arrival ----------------------------------------------------------

  predicate Names(objs: seq<Object>, id: string, name: string) {
    exists o :: o in objs && Text(o, Id) == id && Text(o, Name) == name
  }

  // A reference of a body as the target must see it: by id alone, to the object
  // the bundle named.
  predicate Arrived(e: Object, body: Object, nameKey: Key, idKey: Key, objs: seq<Object>) {
    && nameKey !in body
    && (if Text(e, nameKey) == "" then Text(body, idKey) == Text(e, idKey)
        else Names(objs, Text(body, idKey), Text(e, nameKey)))
  }

  lemma ExchangedIs(o: Object, from: Key, to: Key, table: map<string, string>, r: Object)
    requires from != to && Exchanged(o, from, to, table) == Some(r)
    ensures from !in r && SameBut(o, r, from, to) && (Text(o, from) == "" || Text(o, from) in table)
    ensures Text(r, to) == if Text(o, from) == "" then Text(o, to) else table[Text(o, from)]
  {
    var kept := o - {from};
    assert r == if Text(o, from) == "" then kept else kept[to := Str(table[Text(o, from)])];
    assert kept.Keys <= o.Keys;
    forall k | k != from && k != to
      ensures Text(r, k) == Text(o, k)
    {
      assert k in r <==> k in o;
    }
  }

  lemma ExchangedArrives(o: Object, nameKey: Key, idKey: Key, objs: seq<Object>, r: Object)
    requires nameKey != idKey && Exchanged(o, nameKey, idKey, IdByName(objs)) == Some(r)
    ensures Arrived(o, r, nameKey, idKey, objs) && SameBut(o, r, nameKey, idKey)
  {
    ExchangedIs(o, nameKey, idKey, IdByName(objs), r);
    hide *;
    var name := Text(o, nameKey);
    if name != "" {
      TableNames(objs, name);
    }
    Arrives(o, r, nameKey, idKey, objs);
  }

  lemma Arrives(o: Object, body: Object, nameKey: Key, idKey: Key, objs: seq<Object>)
    requires nameKey !in body
    requires Text(o, nameKey) == "" ==> Text(body, idKey) == Text(o, idKey)
    requires Text(o, nameKey) != "" ==> Names(objs, Text(body, idKey), Text(o, nameKey))
    ensures Arrived(o, body, nameKey, idKey, objs)
  {
  }

  lemma TableNames(objs: seq<Object>, name: string)
    requires name in IdByName(objs)
    ensures Names(objs, IdByName(objs)[name], name)
  {
    hide IdByName;
    IdOfName(objs, name);
  }

  ghost predicate SameBut(o: Object, r: Object, nameKey: Key, idKey: Key) {
    && r.Keys <= o.Keys + {idKey}
    && forall k :: k != nameKey && k != idKey ==> Text(r, k) == Text(o, k)
  }

  lemma WithoutOpenApi(e: Object)
    ensures (e - OPENAPI_ONLY).Keys !! OPENAPI_ONLY
    ensures forall k :: k !in OPENAPI_ONLY ==> Text(e - OPENAPI_ONLY, k) == Text(e, k)
    ensures OPENAPI_ONLY !! {GroupId, GroupName, ProfileId, ProfileName, Mac, Name}
  {
  }

  // The texts a body must agree on with the step that made it for a reference to
  // have arrived in it.
  lemma ArrivedIn(e: Object, o: Object, r: Object, body: Object, nameKey: Key, idKey: Key, objs: seq<Object>)
    requires Arrived(o, r, nameKey, idKey, objs) && nameKey !in body && Text(body, idKey) == Text(r, idKey)
    requires Text(e, nameKey) == Text(o, nameKey) && Text(e, idKey) == Text(o, idKey)
    ensures Arrived(e, body, nameKey, idKey, objs)
  {
    hide Text, Names;
  }

  ghost predicate SameTexts(a: Object, b: Object, keys: set<Key>) { forall k :: k in keys ==> Text(a, k) == Text(b, k) }

  // A group is filled in first, and filling in a profile does not disturb it.
  lemma GroupArrives(e: Object, o: Object, g: Object, p: Object, body: Object, objs: seq<Object>)
    requires Arrived(o, g, GroupName, GroupId, objs) && SameBut(g, p, ProfileName, ProfileId)
    requires SameTexts(e, o, {GroupId, GroupName})
    requires body.Keys <= p.Keys && Text(body, GroupId) == Text(p, GroupId)
    ensures Arrived(e, body, GroupName, GroupId, objs)
  {
    hide Text, Names;
    assert GroupName !in g;
    ArrivedIn(e, o, g, body, GroupName, GroupId, objs);
  }

  // The profile is filled in into an object whose profile is still the bundle's.
  lemma ProfileArrives(e: Object, o: Object, g: Object, p: Object, body: Object, objs: seq<Object>)
    requires SameBut(o, g, GroupName, GroupId) && Arrived(g, p, ProfileName, ProfileId, objs)
    requires SameTexts(e, o, {ProfileId, ProfileName})
    requires body.Keys <= p.Keys && Text(body, ProfileId) == Text(p, ProfileId)
    ensures Arrived(e, body, ProfileName, ProfileId, objs)
  {
    hide Text, Names;
    assert ProfileName !in p;
    ArrivedIn(e, g, p, body, ProfileName, ProfileId, objs);
  }

  // Neither step touches anything else.
  lemma RestArrives(e: Object, o: Object, g: Object, p: Object, body: Object)
    requires SameBut(o, g, GroupName, GroupId) && SameBut(g, p, ProfileName, ProfileId)
    requires SameTexts(e, o, {Mac, Name}) && SameTexts(body, p, {Mac, Name}) && body.Keys <= p.Keys
    ensures MacOf(body) == MacOf(e) && body.Keys <= o.Keys + {GroupId, ProfileId}
  {
    hide Text, NormMac;
  }

  lemma BothArrive(e: Object, o: Object, g: Object, p: Object, body: Object, t: Target)
    requires SameBut(o, g, GroupName, GroupId) && SameBut(g, p, ProfileName, ProfileId)
    requires forall k :: k in {GroupId, GroupName, ProfileId, ProfileName, Mac, Name} ==> Text(e, k) == Text(o, k)
    requires Arrived(o, g, GroupName, GroupId, t.groups) && Arrived(g, p, ProfileName, ProfileId, t.profiles)
    requires body.Keys <= p.Keys && forall k :: Text(body, k) == Text(p, k)
    ensures Arrived(e, body, GroupName, GroupId, t.groups) && Arrived(e, body, ProfileName, ProfileId, t.profiles)
    ensures MacOf(body) == MacOf(e) && body.Keys <= o.Keys + {GroupId, ProfileId}
  {
    hide Text, Arrived, SameBut, MacOf;
    GroupArrives(e, o, g, p, body, t.groups);
    ProfileArrives(e, o, g, p, body, t.profiles);
    RestArrives(e, o, g, p, body);
  }

  // What the tables of a target make of an endpoint.
  lemma ResolvedArrives(t: Target, e: Object)
    ensures Resolved(e, TablesOf(t)).None? <==>
              || (Text(e, GroupName) != "" && Text(e, GroupName) !in NamesIn(t.groups))
              || (Text(e, ProfileName) != "" && Text(e, ProfileName) !in NamesIn(t.profiles))
    ensures Resolved(e, TablesOf(t)).Some? ==>
              var body := Compact(Resolved(e, TablesOf(t)).value);
              && Arrived(e, body, GroupName, GroupId, t.groups)
              && Arrived(e, body, ProfileName, ProfileId, t.profiles)
              && body.Keys !! OPENAPI_ONLY && MacOf(body) == MacOf(e)
  {
    hide Compact, IdByName, Text, Names, Arrived, SameBut, OPENAPI_ONLY, NamesIn, MacOf;
    var o := e - OPENAPI_ONLY;
    WithoutOpenApi(e);
    IndexKeys(t.groups);
    IndexKeys(t.profiles);
    var g := Exchanged(o, GroupName, GroupId, IdByName(t.groups));
    if g.Some? {
      ExchangedArrives(o, GroupName, GroupId, t.groups, g.value);
      ProfileUntouched(o, g.value);
      var p := Exchanged(g.value, ProfileName, ProfileId, IdByName(t.profiles));
      if p.Some? {
        var body := Compact(p.value);
        ExchangedArrives(g.value, ProfileName, ProfileId, t.profiles, p.value);
        CompactAll(p.value);
        BothArrive(e, o, g.value, p.value, body, t);
      }
    }
  }

  lemma ProfileUntouched(o: Object, g: Object)
    requires SameBut(o, g, GroupName, GroupId)
    ensures Text(g, ProfileName) == Text(o, ProfileName)
  {
  }

  lemma CompactAll(o: Object)
    ensures Compact(o).Keys <= o.Keys
    ensures forall k :: Text(Compact(o), k) == Text(o, k)
  {
    forall k
      ensures Text(Compact(o), k) == Text(o, k)
    {
      CompactKeepsText(o, k);
    }
  }

  // What the log of a pass says of one endpoint.
  ghost predicate Accounted(o: Outcome, t: Target, e: Object) {
    && o.obj == e
    && match o
       case Unresolved(_, missing) => Resolved(e, TablesOf(t)).None? && missing == Missing(e, TablesOf(t))
       case Sent(_, before, body, _) =>
         && Resolved(e, TablesOf(t)).Some? && body == Compact(Resolved(e, TablesOf(t)).value)
         && before.groups == t.groups && before.profiles == t.profiles
  }

  lemma {:induction false} MemberLog(t: Target, asked: nat, answers: nat -> Answer, es: seq<Object>)
    ensures var r := MemberPass(Begin(t, asked), answers, TablesOf(t), es);
            && |r.log| == |es| == r.tally.Total()
            && forall i :: 0 <= i < |es| ==> Accounted(r.log[i], t, es[i])
  {
    hide Resolved, Compact, TablesOf, Extended, ReplyOf, Missing, Later;
    if es != [] {
      var n := |es| - 1;
      MemberLog(t, asked, answers, es[..n]);
      MemberPassGrows(Begin(t, asked), answers, TablesOf(t), es[..n]);
      var m := MemberPass(Begin(t, asked), answers, TablesOf(t), es[..n]);
      LaterKeepsProfiles(t, m.target);
      assert MemberPass(Begin(t, asked), answers, TablesOf(t), es) == MemberStep(m, answers, TablesOf(t), es[n]);
    }
  }

  lemma LaterKeepsProfiles(a: Target, b: Target)
    requires Later(a, b)
    ensures a.profiles == b.profiles
  {
  }

  lemma {:induction false} GroupLog(s: Run, answers: nat -> Answer, gs: seq<Object>)
    requires s.log == []
    ensures var r := GroupPass(s, answers, gs);
            && |r.log| == |gs| && r.tally.Total() == s.tally.Total() + |gs|
            && forall i :: 0 <= i < |gs| ==> r.log[i].Sent? && r.log[i].obj == gs[i] && r.log[i].body == Compact(gs[i])
  {
    hide Compact, Extended, ReplyOf;
    if gs != [] {
      GroupLog(s, answers, gs[..|gs| - 1]);
    }
  }

  // Whatever is refused, an endpoint that is sent carries the id of a group the
  // target holds at that moment under the very name the bundle carries, a profile
  // likewise, no name, and nothing only the newer API knows.
  lemma ArrivalsPointAtTheirGroup(t: Target, asked: nat, answers: nat -> Answer, report: seq<Verdict>, o: Outcome)
    requires o in Apply(t, asked, answers, report).members.log && o.Sent?
    ensures Arrived(o.obj, o.body, GroupName, GroupId, o.before.groups)
    ensures Arrived(o.obj, o.body, ProfileName, ProfileId, o.before.profiles)
    ensures o.body.Keys !! OPENAPI_ONLY && o.before.profiles == t.profiles
  {
    var a := Apply(t, asked, answers, report);
    var es := Cleared(report, Members);
    Reached(t, asked, answers, report);
    LaterKeepsProfiles(t, a.groups.target);
    MemberLog(a.groups.target, a.groups.asked, answers, es);
    var i :| 0 <= i < |a.members.log| && a.members.log[i] == o;
    hide *;
    assert Accounted(o, a.groups.target, es[i]);
    SentIs(o, a.groups.target, es[i]);
    ResolvedArrives(a.groups.target, es[i]);
  }

  lemma SentIs(o: Outcome, t: Target, e: Object)
    requires Accounted(o, t, e)
    ensures o.obj == e && (o.Sent? <==> Resolved(e, TablesOf(t)).Some?)
    ensures o.Sent? ==>
              && o.body == Compact(Resolved(e, TablesOf(t)).value)
              && o.before.groups == t.groups && o.before.profiles == t.profiles
    ensures o.Unresolved? ==> o.missing == Missing(e, TablesOf(t))
  {
    hide Resolved, Compact, TablesOf, Missing;
  }

  // --- what pre-flight clears -----------------------------------------------------------

  lemma {:induction false} ClearedFrom(report: seq<Verdict>, family: Family, e: Object)
    ensures e in Cleared(report, family) <==> exists v ::
              v in report && v.reason.family == family && v.action == Create && v.obj == e
  {
    if report != [] {
      var n := |report| - 1;
      ClearedFrom(report[..n], family, e);
      assert report == report[..n] + [report[n]];
      assert forall v :: v in report <==> v in report[..n] || v == report[n];
    }
  }

  lemma ClearedGroup(t: Target, gs: seq<Object>, es: seq<Object>, g: Object)
    ensures g in Cleared(Preflight(t, gs, es), Groups) <==> g in gs && GroupVerdict(t, g).action == Create
  {
    hide GroupVerdicts, MemberVerdicts, WillExist, MemberVerdict, IdByName;
    GroupAt(t, gs);
    MemberAt(t, WillExist(t, gs), es);
    ClearedFrom(Preflight(t, gs, es), Groups, g);
    OfMembers(t, WillExist(t, gs));
    if g in gs && GroupVerdict(t, g).action == Create { assert GroupVerdict(t, g) in Preflight(t, gs, es); }
  }

  lemma ClearedMember(t: Target, gs: seq<Object>, es: seq<Object>, e: Object)
    ensures e in Cleared(Preflight(t, gs, es), Members) <==>
              e in es && MemberVerdict(t, WillExist(t, gs), e).action == Create
  {
    hide GroupVerdicts, MemberVerdicts, WillExist, MemberVerdict, IdByName;
    GroupAt(t, gs);
    MemberAt(t, WillExist(t, gs), es);
    OfMembers(t, WillExist(t, gs));
    ClearedFrom(Preflight(t, gs, es), Members, e);
    if e in es && MemberVerdict(t, WillExist(t, gs), e).action == Create {
      assert MemberVerdict(t, WillExist(t, gs), e) in Preflight(t, gs, es);
    }
  }

  lemma GroupAt(t: Target, gs: seq<Object>)
    ensures forall v :: v in GroupVerdicts(t, gs) <==> exists g :: g in gs && v == GroupVerdict(t, g)
    ensures forall g :: g in gs ==> GroupVerdict(t, g) in GroupVerdicts(t, gs)
  {
    hide GroupVerdict;
    forall g | g in gs
      ensures GroupVerdict(t, g) in GroupVerdicts(t, gs)
    {
      var i :| 0 <= i < |gs| && gs[i] == g;
      assert GroupVerdicts(t, gs)[i] == GroupVerdict(t, g);
    }
  }

  lemma MemberAt(t: Target, groups: set<string>, es: seq<Object>)
    ensures forall v :: v in MemberVerdicts(t, groups, es) ==> exists e :: e in es && v == MemberVerdict(t, groups, e)
    ensures forall e :: e in es ==> MemberVerdict(t, groups, e) in MemberVerdicts(t, groups, es)
  {
    hide MemberVerdict;
    forall e | e in es
      ensures MemberVerdict(t, groups, e) in MemberVerdicts(t, groups, es)
    {
      var i :| 0 <= i < |es| && es[i] == e;
      assert MemberVerdicts(t, groups, es)[i] == MemberVerdict(t, groups, e);
    }
  }

  lemma OfMembers(t: Target, groups: set<string>)
    ensures forall e :: MemberVerdict(t, groups, e).reason.family == Members && MemberVerdict(t, groups, e).obj == e
  {
  }

  // --- what can still fail to resolve ---------------------------------------------------

  lemma UnresolvedInMidRun(t: Target, asked: nat, answers: nat -> Answer, gs: seq<Object>, es: seq<Object>, o: Outcome)
    requires o in Apply(t, asked, answers, Preflight(t, gs, es)).members.log
    ensures var u := Apply(t, asked, answers, Preflight(t, gs, es)).groups.target;
            var group := Text(o.obj, GroupName);
            o.Unresolved? <==> group != "" && group !in NamesIn(u.groups)
  {
    var report := Preflight(t, gs, es);
    var a := Apply(t, asked, answers, report);
    var cleared := Cleared(report, Members);
    Reached(t, asked, answers, report);
    LaterKeepsProfiles(t, a.groups.target);
    MemberLog(a.groups.target, a.groups.asked, answers, cleared);
    var i :| 0 <= i < |a.members.log| && a.members.log[i] == o;
    assert cleared[i] in cleared;
    hide *;
    assert Accounted(o, a.groups.target, cleared[i]);
    SentIs(o, a.groups.target, cleared[i]);
    ResolvedArrives(a.groups.target, cleared[i]);
    ClearedMember(t, gs, es, cleared[i]);
    ProfileKnown(t, WillExist(t, gs), cleared[i]);
  }

  lemma ProfileKnown(t: Target, groups: set<string>, e: Object)
    requires MemberVerdict(t, groups, e).action == Create
    ensures Text(e, ProfileName) == "" || Text(e, ProfileName) in NamesIn(t.profiles)
    ensures Text(e, GroupName) == "" || Text(e, GroupName) in groups
    ensures MacOf(e) !in MacsIn(t.endpoints)
  {
    IndexKeys(t.profiles);
  }

  function LandedNames(log: seq<Outcome>): set<string> { set o | o in log && HasLanded(o) :: Text(o.obj, Name) }

  // The target's groups after a pass are, by name, its own and those that landed.
  lemma {:induction false} GroupsAfter(s: Run, answers: nat -> Answer, gs: seq<Object>)
    requires s.log == []
    ensures var r := GroupPass(s, answers, gs);
            NamesIn(r.target.groups) == NamesIn(s.target.groups) + LandedNames(r.log)
    ensures forall o :: o in GroupPass(s, answers, gs).log ==> o.obj in gs
  {
    hide Text, Compact, NamesIn, LandedNames;
    if gs == [] {
      NoneLanded();
    } else {
      var n := |gs| - 1;
      var m := GroupPass(s, answers, gs[..n]);
      GroupsAfter(s, answers, gs[..n]);
      SendNames(m, answers, gs[n]);
      assert forall g :: g in gs[..n] ==> g in gs;
    }
  }

  lemma NoneLanded()
    ensures LandedNames([]) == {}
  {
  }

  lemma SendNames(m: Run, answers: nat -> Answer, g: Object)
    ensures var r := Send(m, answers, Groups, g, Compact(g));
            && NamesIn(r.target.groups) == NamesIn(m.target.groups) +
                (if HasLanded(r.log[|m.log|]) then {Text(g, Name)} else {})
            && LandedNames(r.log) == LandedNames(m.log) + (if HasLanded(r.log[|m.log|]) then {Text(g, Name)} else {})
  {
    hide Compact, Mintable;
    CompactKeepsText(g, Name);
    var r := Send(m, answers, Groups, g, Compact(g));
    var a := answers(m.asked);
    if ReplyOf(m.target, a) == Landed {
      var h := Stored(Compact(g), a.id);
      assert Text(h, Name) == Text(g, Name);
      assert r.target.groups == m.target.groups + [h];
      assert h in r.target.groups;
    }
    assert r.log == m.log + [r.log[|m.log|]];
  }

  // An endpoint pre-flight cleared fails to resolve exactly when the target did
  // not have its group before the run and no create of that group landed.
  lemma UnresolvedExactly(t: Target, asked: nat, answers: nat -> Answer, gs: seq<Object>, es: seq<Object>, o: Outcome)
    requires o in Apply(t, asked, answers, Preflight(t, gs, es)).members.log
    ensures var group := Text(o.obj, GroupName);
            o.Unresolved? <==>
              group != "" && group !in NamesIn(t.groups) && group !in LandedNames(Apply(t, asked, answers,
                  Preflight(t, gs, es)).groups.log)
  {
    hide Preflight, Cleared, GroupPass, MemberPass, NamesIn, LandedNames, Text;
    UnresolvedInMidRun(t, asked, answers, gs, es, o);
    GroupsAfter(Begin(t, asked), answers, Cleared(Preflight(t, gs, es), Groups));
  }

  // When of every group that is sent one create of its name lands, every endpoint
  // pre-flight cleared is sent: it does not matter that another is refused, or
  // answered as a duplicate.
  lemma ClearedEndpointsAreSent(t: Target, asked: nat, answers: nat -> Answer, gs: seq<Object>, es: seq<Object>)
    ensures var a := Apply(t, asked, answers, Preflight(t, gs, es));
            EachLands(a.groups.log) ==> forall o :: o in a.members.log ==> o.Sent?
  {
    hide Preflight, Cleared, GroupPass, MemberPass, NamesIn, LandedNames, Text, WillExist, MemberVerdict;
    var report := Preflight(t, gs, es);
    var a := Apply(t, asked, answers, report);
    MemberLog(a.groups.target, a.groups.asked, answers, Cleared(report, Members));
    GroupLog(Begin(t, asked), answers, Cleared(report, Groups));
    forall o | o in a.members.log && EachLands(a.groups.log)
      ensures o.Sent?
    {
      UnresolvedExactly(t, asked, answers, gs, es, o);
      var i :| 0 <= i < |a.members.log| && a.members.log[i] == o;
      assert Cleared(report, Members)[i] in Cleared(report, Members);
      ClearedMember(t, gs, es, o.obj);
      ProfileKnown(t, WillExist(t, gs), o.obj);
      var name := Text(o.obj, GroupName);
      if name != "" && name !in NamesIn(t.groups) {
        Promised(t, gs, name);
        ClearedByName(t, gs, es, name);
        var k :| 0 <= k < |Cleared(report, Groups)| && Text(Cleared(report, Groups)[k], Name) == name;
        assert a.groups.log[k] in a.groups.log;
      }
    }
  }

  // Of every group sent, one create of its name landed.
  ghost predicate EachLands(log: seq<Outcome>) { forall o :: o in log ==> Text(o.obj, Name) in LandedNames(log) }

  lemma Promised(t: Target, gs: seq<Object>, name: string)
    requires name in WillExist(t, gs) && name !in NamesIn(t.groups)
    ensures name in ToCreate(GroupVerdicts(t, gs))
  {
  }

  function Refusing(n: nat): Answer { Refuse }

  // A group whose create is refused takes its endpoint with it.
  lemma RefusedGroupLosesItsEndpoint() returns (t: Target, gs: seq<Object>, es: seq<Object>, o: Outcome)
    ensures o in Apply(t, 0, Refusing, Preflight(t, gs, es)).members.log && o.Unresolved?
    ensures Text(o.obj, GroupName) == "Printers"
  {
    var g: Object := map[Name := Str("Printers")];
    var e: Object := map[Mac := Str("AA"), GroupName := Str("Printers")];
    t, gs, es := Target([], [], []), [g], [e];
    assert Text(e, GroupName) == "Printers" && t.groups == [] && NamesIn([]) == {} && e in es;
    FirstImport(g, e);
    hide Preflight, Cleared, GroupPass, MemberPass, Text, MemberVerdict, WillExist, NamesIn;
    ClearedMember(t, gs, es, e);
    OutcomeOf(t, 0, Refusing, gs, es, e);
    o :| o in Apply(t, 0, Refusing, Preflight(t, gs, es)).members.log && o.obj == e;
    NothingLands(Begin(t, 0), Cleared(Preflight(t, gs, es), Groups));
    UnresolvedExactly(t, 0, Refusing, gs, es, o);
  }

  lemma FirstImport(g: Object, e: Object)
    requires g == map[Name := Str("Printers")] && e == map[Mac := Str("AA"), GroupName := Str("Printers")]
    ensures MemberVerdict(Target([], [], []), WillExist(Target([], [], []), [g]), e).action == Create
  {
    var t := Target([], [], []);
    Marker.TrimIs("AA", 0, 2);
    assert "AA"[0..2] == "AA";
    assert |MacOf(e)| == 2;
    assert GroupVerdict(t, g).action == Create && GroupVerdict(t, g) in GroupVerdicts(t, [g]) by { GroupAt(t, [g]); }
  }

  lemma OutcomeOf(t: Target, asked: nat, answers: nat -> Answer, gs: seq<Object>, es: seq<Object>, e: Object)
    ensures e in Cleared(Preflight(t, gs, es), Members) ==>
              exists o :: o in Apply(t, asked, answers, Preflight(t, gs, es)).members.log && o.obj == e
  {
    hide Preflight, Cleared, GroupPass, MemberPass;
    if e in Cleared(Preflight(t, gs, es), Members) { MemberTried(t, asked, answers, Preflight(t, gs, es), e); }
  }

  lemma {:induction false} NothingLands(s: Run, gs: seq<Object>)
    requires s.log == []
    ensures LandedNames(GroupPass(s, Refusing, gs).log) == {}
  {
    hide Compact;
    if gs != [] { NothingLands(s, gs[..|gs| - 1]); }
  }

  lemma ClearedByName(t: Target, gs: seq<Object>, es: seq<Object>, name: string)
    requires name in ToCreate(GroupVerdicts(t, gs))
    ensures var cleared := Cleared(Preflight(t, gs, es), Groups);
            exists k :: 0 <= k < |cleared| && Text(cleared[k], Name) == name
  {
    hide IdByName, Preflight;
    var v :| v in GroupVerdicts(t, gs) && v.action == Create && v.name == name;
    GroupAt(t, gs);
    ClearedGroup(t, gs, es, v.obj);
  }

  lemma NamesStay(a: Target, b: Target, name: string)
    requires Later(a, b) && name in NamesIn(a.groups)
    ensures name in NamesIn(b.groups)
  {
    assert forall g :: g in a.groups ==> g in b.groups;
  }

  // --- a second run ---------------------------------------------------------------------

  lemma ListedStays(a: Target, b: Target, name: string)
    requires Later(a, b) && Sound(b) && name in NamesIn(a.groups)
    ensures Has(IdByName(b.groups), name)
  {
    NamesStay(a, b, name);
    IndexKeys(b.groups);
    IdOfName(b.groups, name);
  }

  lemma {:induction false} LandedEndpointsAreThere(t: Target, asked: nat, answers: nat -> Answer, es: seq<Object>,
                                                   o: Outcome)
    requires o in MemberPass(Begin(t, asked), answers, TablesOf(t), es).log && HasLanded(o)
    ensures MacOf(o.obj) in MacsIn(MemberPass(Begin(t, asked), answers, TablesOf(t), es).target.endpoints)
  {
    hide Resolved, Compact, TablesOf, MacOf, Mintable;
    var n := |es| - 1;
    var m := MemberPass(Begin(t, asked), answers, TablesOf(t), es[..n]);
    var u := MemberPass(Begin(t, asked), answers, TablesOf(t), es);
    if o in m.log {
      LandedEndpointsAreThere(t, asked, answers, es[..n], o);
      assert forall e :: e in m.target.endpoints ==> e in u.target.endpoints;
    } else {
      var body := Compact(Resolved(es[n], TablesOf(t)).value);
      var e := Stored(body, answers(m.asked).id);
      ResolvedArrives(t, es[n]);
      StoredMac(body, answers(m.asked).id);
      assert e in u.target.endpoints;
    }
  }

  lemma StoredMac(body: Object, id: string)
    ensures MacOf(Stored(body, id)) == MacOf(body)
  {
  }

  lemma GroupRetries(t: Target, asked: nat, answers: nat -> Answer, gs: seq<Object>, es: seq<Object>, g: Object)
    requires Sound(t) && g in gs
    ensures var a := Apply(t, asked, answers, Preflight(t, gs, es));
            GroupVerdict(a.members.target, g).action == Create ==>
              && GroupVerdict(t, g).action == Create
              && forall o :: o in a.groups.log && HasLanded(o) ==> Text(o.obj, Name) != Text(g, Name)
  {
    var report := Preflight(t, gs, es);
    var a := Apply(t, asked, answers, report);
    var u := a.members.target;
    Reached(t, asked, answers, report);
    assert Sound(u) by { hide Apply, Mintable, Sound; }
    hide Sound, Later, Preflight, Cleared, GroupPass, MemberPass, IdByName, Text;
    IndexKeys(t.groups);
    if Text(g, Name) in NamesIn(t.groups) {
      ListedStays(t, u, Text(g, Name));
    }
    forall o | o in a.groups.log && HasLanded(o) && Text(o.obj, Name) == Text(g, Name)
      ensures Has(IdByName(u.groups), Text(g, Name))
    {
      GroupsAfter(Begin(t, asked), answers, Cleared(report, Groups));
      LaterRefl(u);
      assert Text(o.obj, Name) in LandedNames(a.groups.log);
      ListedStays(u, u, Text(g, Name));
    }
  }

  lemma PromisesShrink(t: Target, asked: nat, answers: nat -> Answer, gs: seq<Object>, es: seq<Object>)
    requires Sound(t)
    ensures WillExist(Apply(t, asked, answers, Preflight(t, gs, es)).members.target, gs) <= WillExist(t, gs)
  {
    var report := Preflight(t, gs, es);
    var a := Apply(t, asked, answers, report);
    var u := a.members.target;
    Reached(t, asked, answers, report);
    GroupsAfter(Begin(t, asked), answers, Cleared(report, Groups));
    forall name | name in WillExist(u, gs)
      ensures name in WillExist(t, gs)
    {
      hide *;
      if name in NamesIn(u.groups) {
        if name !in NamesIn(t.groups) {
          var o := LandedOne(a.groups.log, name);
          ClearedGroup(t, gs, es, o.obj);
          PromisedBy(t, gs, o.obj);
        } else {
          OwnPromised(t, gs, name);
        }
      } else {
        var g := PromiseOf(u, gs, name);
        GroupRetries(t, asked, answers, gs, es, g);
        PromisedBy(t, gs, g);
      }
    }
  }

  lemma LandedOne(log: seq<Outcome>, name: string) returns (o: Outcome)
    requires name in LandedNames(log)
    ensures o in log && HasLanded(o) && Text(o.obj, Name) == name
  {
    o :| o in log && HasLanded(o) && Text(o.obj, Name) == name;
  }

  lemma OwnPromised(t: Target, gs: seq<Object>, name: string)
    requires name in NamesIn(t.groups)
    ensures name in WillExist(t, gs)
  {
  }

  lemma PromisedBy(t: Target, gs: seq<Object>, g: Object)
    requires g in gs && GroupVerdict(t, g).action == Create
    ensures Text(g, Name) in WillExist(t, gs)
  {
    hide Text, IdByName, GroupVerdicts;
    GroupAt(t, gs);
  }

  lemma PromiseOf(t: Target, gs: seq<Object>, name: string) returns (g: Object)
    requires name in WillExist(t, gs) && name !in NamesIn(t.groups)
    ensures g in gs && GroupVerdict(t, g).action == Create && Text(g, Name) == name
  {
    hide Text, IdByName, GroupVerdicts;
    GroupAt(t, gs);
    var v :| v in GroupVerdicts(t, gs) && v.action == Create && v.name == name;
    g :| g in gs && v == GroupVerdict(t, g);
  }

  // Less is cleared where more is there and less is promised.
  lemma VerdictShrinks(t: Target, u: Target, groups: set<string>, fewer: set<string>, e: Object)
    requires t.endpoints <= u.endpoints && t.profiles == u.profiles && fewer <= groups
    requires MemberVerdict(u, fewer, e).action == Create
    ensures MemberVerdict(t, groups, e).action == Create && MacOf(e) !in MacsIn(u.endpoints)
  {
    hide Has, IdByName, MacOf, Text;
    assert forall x :: x in t.endpoints ==> x in u.endpoints;
  }

  lemma EndpointRetries(t: Target, asked: nat, answers: nat -> Answer, gs: seq<Object>, es: seq<Object>, e: Object)
    requires Sound(t) && e in es
    ensures var a := Apply(t, asked, answers, Preflight(t, gs, es));
            MemberVerdict(a.members.target, WillExist(a.members.target, gs), e).action == Create ==>
              && MemberVerdict(t, WillExist(t, gs), e).action == Create
              && forall o :: o in a.members.log && HasLanded(o) ==> MacOf(o.obj) != MacOf(e)
  {
    var report := Preflight(t, gs, es);
    var a := Apply(t, asked, answers, report);
    var u := a.members.target;
    Reached(t, asked, answers, report);
    PromisesShrink(t, asked, answers, gs, es);
    if MemberVerdict(u, WillExist(u, gs), e).action == Create {
      VerdictShrinks(t, u, WillExist(t, gs), WillExist(u, gs), e);
    }
    hide Sound, Preflight, Cleared, GroupPass, MemberPass, Text, WillExist, MemberVerdict, Later, MacOf, MacsIn;
    forall o | o in a.members.log && HasLanded(o)
      ensures MacOf(o.obj) in MacsIn(u.endpoints)
    {
      LandedEndpointsAreThere(a.groups.target, a.groups.asked, answers, Cleared(report, Members), o);
    }
  }

  // After any first run, all a second pre-flight clears is what the first cleared
  // and did not get in.
  lemma RerunRetriesOnlyWhatDidNotLand(t: Target, asked: nat, answers: nat -> Answer, gs: seq<Object>, es: seq<Object>)
    requires Sound(t)
    ensures var first := Apply(t, asked, answers, Preflight(t, gs, es));
            var u := first.members.target;
            && (forall g :: g in gs && GroupVerdict(u, g).action == Create ==>
                  && GroupVerdict(t, g).action == Create
                  && forall o :: o in first.groups.log && HasLanded(o) ==> Text(o.obj, Name) != Text(g, Name))
            && (forall e :: e in es && MemberVerdict(u, WillExist(u, gs), e).action == Create ==>
                  && MemberVerdict(t, WillExist(t, gs), e).action == Create
                  && forall o :: o in first.members.log && HasLanded(o) ==> MacOf(o.obj) != MacOf(e))
  {
    hide Apply, Preflight, GroupVerdict, MemberVerdict, WillExist, HasLanded, Text, MacOf, Sound;
    var first := Apply(t, asked, answers, Preflight(t, gs, es));
    var u := first.members.target;
    forall g | g in gs && GroupVerdict(u, g).action == Create
      ensures GroupVerdict(t, g).action == Create
      ensures forall o :: o in first.groups.log && HasLanded(o) ==> Text(o.obj, Name) != Text(g, Name)
    {
      GroupRetries(t, asked, answers, gs, es, g);
    }
    forall e | e in es && MemberVerdict(u, WillExist(u, gs), e).action == Create
      ensures MemberVerdict(t, WillExist(t, gs), e).action == Create
      ensures forall o :: o in first.members.log && HasLanded(o) ==> MacOf(o.obj) != MacOf(e)
    {
      EndpointRetries(t, asked, answers, gs, es, e);
    }
  }

  lemma GroupSent(t: Target, asked: nat, answers: nat -> Answer, report: seq<Verdict>, g: Object)
    requires g in Cleared(report, Groups)
    ensures exists o :: o in Apply(t, asked, answers, report).groups.log && o.obj == g
  {
    hide Cleared, GroupPass, MemberPass;
    GroupLog(Begin(t, asked), answers, Cleared(report, Groups));
    var i :| 0 <= i < |Cleared(report, Groups)| && Cleared(report, Groups)[i] == g;
    assert Apply(t, asked, answers, report).groups.log[i].obj == g;
  }

  lemma MemberTried(t: Target, asked: nat, answers: nat -> Answer, report: seq<Verdict>, e: Object)
    requires e in Cleared(report, Members)
    ensures exists o :: o in Apply(t, asked, answers, report).members.log && o.obj == e
  {
    hide Cleared, GroupPass, MemberPass;
    var a := Apply(t, asked, answers, report);
    MemberLog(a.groups.target, a.groups.asked, answers, Cleared(report, Members));
    var i :| 0 <= i < |Cleared(report, Members)| && Cleared(report, Members)[i] == e;
    assert Accounted(a.members.log[i], a.groups.target, e);
  }

  // Once everything sent has landed, a second run sends nothing.
  lemma CompletedImportIsFinal(t: Target, asked: nat, answers: nat -> Answer, gs: seq<Object>, es: seq<Object>)
    requires Sound(t)
    requires forall o :: o in Apply(t, asked, answers, Preflight(t, gs, es)).groups.log ==> HasLanded(o)
    requires forall o :: o in Apply(t, asked, answers, Preflight(t, gs, es)).members.log ==> HasLanded(o)
    ensures var again := Preflight(Apply(t, asked, answers, Preflight(t, gs, es)).members.target, gs, es);
            Cleared(again, Groups) == [] && Cleared(again, Members) == []
  {
    hide Preflight, Apply, Cleared, Sound, GroupVerdict, MemberVerdict, WillExist, HasLanded;
    var report := Preflight(t, gs, es);
    var u := Apply(t, asked, answers, report).members.target;
    var again := Preflight(u, gs, es);
    if Cleared(again, Groups) != [] {
      var g := Cleared(again, Groups)[0];
      ClearedGroup(u, gs, es, g);
      GroupRetries(t, asked, answers, gs, es, g);
      ClearedGroup(t, gs, es, g);
      GroupSent(t, asked, answers, report, g);
    }
    if Cleared(again, Members) != [] {
      var e := Cleared(again, Members)[0];
      ClearedMember(u, gs, es, e);
      EndpointRetries(t, asked, answers, gs, es, e);
      ClearedMember(t, gs, es, e);
      MemberTried(t, asked, answers, report, e);
    }
  }

  // --- from one deployment to another -----------------------------------------------------

  lemma NormalMacStays(m: string)
    ensures NormMac(NormMac(m)) == NormMac(m)
  {
    var a, b := Marker.CoreOf(m);
    var n := NormMac(m);
    Marker.TrimIs(n, 0, |n|);
    assert n[0..|n|] == n;
    assert Upper(n) == n;
  }

  lemma ExchangedKeeps(o: Object, from: Key, to: Key, table: map<string, string>, r: Object, k: Key)
    requires k != from && k != to && Exchanged(o, from, to, table) == Some(r)
    ensures Truthy(r, k) == Truthy(o, k)
  {
    hide EqualFoldTrue;
  }

  // What is left to do once the references are exchanged.
  lemma Packed(p: Object, mac: string)
    requires GroupId !in p && ProfileId !in p && NormMac(mac) == mac && mac != ""
    ensures var o := StripLocal(p[Mac := Str(mac)]);
            && {Id, GroupId, ProfileId} !! o.Keys && MacOf(o) == mac
            && Text(o, GroupName) == Text(p, GroupName) && Text(o, ProfileName) == Text(p, ProfileName)
  {
    hide NormMac, WithoutLinks;
    var q := p[Mac := Str(mac)];
    StripKeepsText(q, Mac);
    StripKeepsText(q, GroupName);
    StripKeepsText(q, ProfileName);
  }

  lemma ProfileDropped(g: Object)
    ensures var p := g - {ProfileId, Profile};
            && ProfileId !in p && (GroupId !in g ==> GroupId !in p) && Text(p, GroupName) == Text(g, GroupName)
  {
  }

  lemma NoNewGroup(g: Object, p: Object)
    requires SameBut(g, p, ProfileId, ProfileName) && GroupId !in g
    ensures GroupId !in p && Text(p, GroupName) == Text(g, GroupName)
  {
    hide Text;
  }

  // An exported endpoint carries its MAC, and its group and static profile by name.
  lemma ExportNames(s: Target, e: Object, o: Object)
    requires Exported(e, NameById(s.groups), NameById(s.profiles)) == Some(o) && Text(e, GroupId) != ""
    ensures {Id, GroupId, ProfileId} !! o.Keys && MacOf(o) == MacOf(e) && Text(o, GroupName) == GroupOf(s, e)
    ensures Truthy(e, StaticProfile) && Text(e, ProfileId) != "" ==> Text(o, ProfileName) == ProfileOf(s, e)
  {
    hide Text, Truthy, Exchanged, SameBut, StripLocal, NameById, MacOf;
    MacIsNormal(e);
    var g := Exchanged(e, GroupId, GroupName, NameById(s.groups)).value;
    ExchangedIs(e, GroupId, GroupName, NameById(s.groups), g);
    ExchangedKeeps(e, GroupId, GroupName, NameById(s.groups), g, StaticProfile);
    ProfileIdKept(e, g);
    if Truthy(e, StaticProfile) {
      var p := Exchanged(g, ProfileId, ProfileName, NameById(s.profiles)).value;
      ExchangedIs(g, ProfileId, ProfileName, NameById(s.profiles), p);
      NoNewGroup(g, p);
      Packed(p, MacOf(e));
    } else {
      ProfileDropped(g);
      Packed(g - {ProfileId, Profile}, MacOf(e));
    }
  }

  lemma ProfileIdKept(e: Object, g: Object)
    requires SameBut(e, g, GroupId, GroupName)
    ensures Text(g, ProfileId) == Text(e, ProfileId)
  {
  }

  lemma MacIsNormal(e: Object)
    ensures NormMac(MacOf(e)) == MacOf(e)
  {
    NormalMacStays(Text(e, Mac));
    NormalMacStays(Text(e, Name));
  }

  lemma NamedOne(objs: seq<Object>, id: string, name: string)
    requires DistinctIds(objs) && Names(objs, id, name)
    ensures Resolve(objs, [], id) == name
  {
    var o :| o in objs && Text(o, Id) == id && Text(o, Name) == name;
    assert objs + [] == objs;
    ResolveListed(objs, [], o);
  }

  lemma NoEmptyId(objs: seq<Object>)
    requires DistinctIds(objs)
    ensures Resolve(objs, [], "") == ""
  {
    NameByIdKeys(objs, "");
  }

  // A reference that arrived names, on the target, what the bundle carries; one the
  // bundle does not carry names nothing.
  lemma ArrivedNames(e: Object, body: Object, nameKey: Key, idKey: Key, objs: seq<Object>)
    requires Arrived(e, body, nameKey, idKey, objs) && DistinctIds(objs) && idKey !in e
    ensures Resolve(objs, [], Text(body, idKey)) == Text(e, nameKey)
  {
    if Text(e, nameKey) == "" {
      NoEmptyId(objs);
    } else {
      NamedOne(objs, Text(body, idKey), Text(e, nameKey));
    }
  }

  lemma CarriedArrives(s: Target, e: Object, carried: Object, t: Target)
    requires Sound(t) && Text(e, GroupId) != ""
    ensures var out := Exported(e, NameById(s.groups), NameById(s.profiles));
            out == Some(carried) && Resolved(carried, TablesOf(t)).Some? ==>
              SameMembership(s, e, t, Compact(Resolved(carried, TablesOf(t)).value))
  {
    if Exported(e, NameById(s.groups), NameById(s.profiles)) == Some(carried) && Resolved(carried, TablesOf(t)).Some? {
      var body := Compact(Resolved(carried, TablesOf(t)).value);
      ExportNames(s, e, carried);
      ResolvedArrives(t, carried);
      hide Exported, Resolved, Compact, Text, Names, Truthy, DistinctIds, Resolve, TablesOf, Arrived;
      ArrivedNames(carried, body, GroupName, GroupId, t.groups);
      ArrivedNames(carried, body, ProfileName, ProfileId, t.profiles);
    }
  }

  // An endpoint is exported alike whether or not the table has an entry for no id.
  lemma EmptyIdIgnored(e: Object, groups: map<string, string>, profiles: map<string, string>)
    ensures Exported(e, groups - {""}, profiles) == Exported(e, groups, profiles)
  {
    hide MacOf, Truthy, StripLocal, Text;
  }

  // There, as here: the same endpoint, in the group and under the static profile
  // of the same name.
  predicate SameMembership(s: Target, e: Object, t: Target, body: Object) {
    && MacOf(body) == MacOf(e)
    && GroupOf(t, body) == GroupOf(s, e)
    && (Truthy(e, StaticProfile) && Text(e, ProfileId) != "" ==> ProfileOf(t, body) == ProfileOf(s, e))
  }

  // An endpoint read from one deployment and sent to another keeps its membership.
  lemma MembershipTravels(s: Target, e: Object, t: Target)
    requires Sound(t) && Text(e, GroupId) != ""
    ensures match Exported(e, NameById(s.groups) - {""}, NameById(s.profiles))
            case None => true
            case Some(carried) =>
              match Resolved(carried, TablesOf(t))
              case None => true
              case Some(o) => SameMembership(s, e, t, Compact(o))
  {
    hide Sound, Exported, Resolved, Compact, SameMembership, Text, TablesOf;
    EmptyIdIgnored(e, NameById(s.groups), NameById(s.profiles));
    match Exported(e, NameById(s.groups) - {""}, NameById(s.profiles)) {
      case None =>
      case Some(carried) =>
        match Resolved(carried, TablesOf(t)) {
          case None =>
          case Some(o) => CarriedArrives(s, e, carried, t);
        }
    }
  }
}
