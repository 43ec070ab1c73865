// Which endpoints are carried and with what, which groups and endpoints pre-flight
// clears, what is sent of each, and what is counted, said of the objects alone.
module EndpointVerdicts {
  import opened Objects
  import opened Report
  import opened TrustSecStore
  import opened Endpoints
  import opened EndpointTheorems
  import Picking
  import Segments
  import Marker

  // --- MACs -------------------------------------------------------------------------------

  // Two letters that are the same but for their case.
  predicate SameLetter(a: char, b: char) {
    || a == b
    || ('a' <= a <= 'z' && b as int + 32 == a as int)
    || ('a' <= b <= 'z' && a as int + 32 == b as int)
  }

  // Two MACs are the same if and only if, trimmed, they have the same letters whatever
  // the case.
  lemma SameMacExactly(m: string, n: string)
    ensures var a, b := Marker.Trim(m), Marker.Trim(n);
            NormMac(m) == NormMac(n) <==> |a| == |b| && forall i :: 0 <= i < |a| ==> SameLetter(a[i], b[i])
  {
    hide Marker.Trim;
    var a, b := Marker.Trim(m), Marker.Trim(n);
    var x, y := NormMac(m), NormMac(n);
    assert |x| == |a| && |y| == |b|;
    forall i | 0 <= i < |a| && i < |b|
      ensures x[i] == y[i] <==> SameLetter(a[i], b[i])
    {
    }
    if x == y {
      assert forall i :: 0 <= i < |a| ==> x[i] == y[i];
    }
  }

  // A MAC has no small letters, and without one of its own an endpoint has its name's.
  lemma MacIs(e: Object)
    ensures forall c :: c in MacOf(e) ==> !('a' <= c <= 'z')
    ensures MacOf(e) == NormMac(if Text(e, Mac) != "" then Text(e, Mac) else Text(e, Name))
  {
    hide Marker.Trim, Text;
  }

  // Set by hand: true, or the word true in whatever case.
  lemma TruthyIs(o: Object, k: Key)
    ensures Truthy(o, k) <==> k in o && (o[k] == Bool(true) || (o[k].Str? && Segments.Lower(o[k].s) == "true"))
  {
    hide EqualFoldTrue, Segments.Lower;
    if k in o && o[k].Str? { TrueInAnyCase(o[k].s); }
  }

  lemma TrueInAnyCase(s: string)
    ensures EqualFoldTrue(s) <==> Segments.Lower(s) == "true"
  {
    var low, word := Segments.Lower(s), ['t', 'r', 'u', 'e'];
    assert word == "true";
    if |s| == 4 {
      LowerOf(s, 0, 't', 'T');
      LowerOf(s, 1, 'r', 'R');
      LowerOf(s, 2, 'u', 'U');
      LowerOf(s, 3, 'e', 'E');
      hide Segments.Lower;
      assert low == word <==> low[0] == 't' && low[1] == 'r' && low[2] == 'u' && low[3] == 'e';
    }
  }

  lemma LowerOf(s: string, i: nat, small: char, big: char)
    requires i < |s| && 'a' <= small <= 'z' && big as int + 32 == small as int
    ensures |Segments.Lower(s)| == |s| && (Segments.Lower(s)[i] == small <==> s[i] == small || s[i] == big)
  {
  }

  // --- what is carried ------------------------------------------------------------------

  const REFERENCES := {GroupId, GroupName, ProfileId, ProfileName, Profile}

  // An endpoint can be carried if and only if it has a MAC, its group, if it is in
  // one, is one of the source's, and its profile, if one was set by hand, is too.
  lemma CarriedExactly(e: Object, groups: map<string, string>, profiles: map<string, string>)
    ensures Exported(e, groups, profiles).Some? <==>
              && MacOf(e) != ""
              && (Text(e, GroupId) != "" ==> Text(e, GroupId) in groups)
              && (Truthy(e, StaticProfile) && Text(e, ProfileId) != "" ==> Text(e, ProfileId) in profiles)
  {
    hide NormMac, StripLocal, Text, EqualFoldTrue;
    ExchangeKeeps(e, GroupId, GroupName, groups);
  }

  lemma ExchangeKeeps(o: Object, from: Key, to: Key, table: map<string, string>)
    requires from != to
    ensures Exchanged(o, from, to, table).Some? <==> Text(o, from) == "" || Text(o, from) in table
    ensures Exchanged(o, from, to, table).Some? ==>
              var r := Exchanged(o, from, to, table).value;
              forall k :: k != from && k != to ==>
                (k in r <==> k in o) && (k in o ==> r[k] == o[k]) && Text(r, k) == Text(o, k)
  {
  }

  // What is carried of it: every property it has, without links, but its id, its
  // link and its references; and its MAC, upper-cased and trimmed.
  lemma CarriedIs(e: Object, groups: map<string, string>, profiles: map<string, string>, k: Key)
    requires Exported(e, groups, profiles).Some? && k !in REFERENCES
    ensures var o := Exported(e, groups, profiles).value;
            if k == Mac then k in o && o[k] == Str(MacOf(e))
            else
              && (k in o <==> k in e && k !in {Id, Link})
              && (k in o ==> o[k] == WithoutLinks(e[k]))
  {
    hide NormMac, MacOf, WithoutLinks, Text, Exchanged, Truthy, StripLocal;
    ExchangeKeeps(e, GroupId, GroupName, groups);
    var o := Exchanged(e, GroupId, GroupName, groups).value;
    if Truthy(o, StaticProfile) {
      ExchangeKeeps(o, ProfileId, ProfileName, profiles);
      PackedAt(Exchanged(o, ProfileId, ProfileName, profiles).value, MacOf(e), k);
    } else {
      PackedAt(o - {ProfileId, Profile}, MacOf(e), k);
    }
  }

  lemma PackedAt(p: Object, mac: string, k: Key)
    ensures var o := StripLocal(p[Mac := Str(mac)]);
            if k == Mac then k in o && o[k] == Str(mac)
            else (k in o <==> k in p && k != Id && k != Link) && (k in o ==> o[k] == WithoutLinks(p[k]))
  {
    var m := WithoutLinks(Str(mac));
    assert m == Str(mac);
    hide WithoutLinks;
  }

  // The endpoint's group is one of those wanted, and something of it was set by hand.
  ghost predicate Wanted(e: Object, groups: map<string, string>, wanted: seq<string>) {
    && Text(e, GroupId) in groups && groups[Text(e, GroupId)] in wanted
    && (Truthy(e, StaticGroup) || Truthy(e, StaticProfile))
  }

  ghost function Carriable(groups: map<string, string>, profiles: map<string, string>, wanted: seq<string>)
    : Object -> bool
  {
    (e: Object) => Wanted(e, groups, wanted) && Exported(e, groups, profiles).Some?
  }

  ghost function Carrying(groups: map<string, string>, profiles: map<string, string>): Object -> Object {
    (e: Object) => match Exported(e, groups, profiles) case Some(o) => o case None => e
  }

  // Carried are exactly the endpoints that are wanted and can be.
  lemma {:induction false} ExportsExactly(es: seq<Object>, groups: map<string, string>, profiles: map<string, string>,
                                          wanted: seq<string>) returns (at: seq<nat>)
    ensures Picking.Picked(at, es, ExportedAll(es, groups, profiles, wanted), Carriable(groups, profiles, wanted),
                           Carrying(groups, profiles))
  {
    hide Exported, Truthy, Text, Picking.Picked;
    var can, carry := Carriable(groups, profiles, wanted), Carrying(groups, profiles);
    if es == [] {
      Picking.NothingPicked(can, carry);
      at := [];
    } else {
      var n := |es| - 1;
      at := ExportsExactly(es[..n], groups, profiles, wanted);
      at := Picking.LastPicked(at, es, ExportedAll(es[..n], groups, profiles, wanted), can, carry);
    }
  }

  // A group is carried without its parent.
  lemma CarriedGroupIs(g: Object, k: Key)
    ensures var o := ExportedGroup(g);
            && (k in o <==> k in g && k !in {Id, Link} && (k == Other("parentId") ==> Text(g, k) == ""))
            && (k in o ==> o[k] == WithoutLinks(g[k]))
  {
    hide WithoutLinks;
  }

  ghost function NamedIn(wanted: seq<string>): Object -> bool { (g: Object) => Text(g, Name) in wanted }

  // Carried are exactly the groups of a wanted name, in the source's order.
  lemma {:induction false} ExportsGroupsExactly(gs: seq<Object>, wanted: seq<string>) returns (at: seq<nat>)
    ensures Picking.Picked(at, gs, ExportedGroups(gs, wanted), NamedIn(wanted), ExportedGroup)
  {
    hide ExportedGroup, Text, Picking.Picked;
    if gs == [] {
      Picking.NothingPicked(NamedIn(wanted), ExportedGroup);
      at := [];
    } else {
      var n := |gs| - 1;
      at := ExportsGroupsExactly(gs[..n], wanted);
      at := Picking.LastPicked(at, gs, ExportedGroups(gs[..n], wanted), NamedIn(wanted), ExportedGroup);
    }
  }

  // --- what is cleared ----------------------------------------------------------------------

  ghost predicate Listed(objs: seq<Object>, name: string) { exists o :: o in objs && Text(o, Name) == name }

  lemma NameListed(objs: seq<Object>, name: string)
    ensures name in NamesIn(objs) <==> Listed(objs, name)
    ensures DistinctIds(objs) ==> (Has(IdByName(objs), name) <==> Listed(objs, name))
  {
    hide Text;
    IndexKeys(objs);
    if name in IdByName(objs) && DistinctIds(objs) {
      TableNames(objs, name);
      var o :| o in objs && Text(o, Id) == IdByName(objs)[name] && Text(o, Name) == name;
      var i :| 0 <= i < |objs| && objs[i] == o;
    }
  }

  // A group is cleared if and only if it has a name no group of the target has;
  // without a name it is blocked.
  lemma GroupClearedExactly(t: Target, gs: seq<Object>, es: seq<Object>, i: nat)
    requires Sound(t) && i < |gs|
    ensures |Preflight(t, gs, es)| == |gs| + |es|
    ensures var v, name := Preflight(t, gs, es)[i], Text(gs[i], Name);
            && v.obj == gs[i] && v.reason.family == Groups && v.name == name
            && (v.action == Create <==> name != "" && !Listed(t.groups, name))
            && (v.action == Blocked <==> name == "")
  {
    hide Text, Listed, Has, WillExist;
    NameListed(t.groups, Text(gs[i], Name));
  }

  // The group is one the target lists, or one this report clears for creation.
  ghost predicate Expected(t: Target, report: seq<Verdict>, name: string) {
    || Listed(t.groups, name)
    || exists v :: v in report && v.reason.family == Groups && v.action == Create && Text(v.obj, Name) == name
  }

  ghost predicate MacListed(t: Target, mac: string) { exists o :: o in t.endpoints && MacOf(o) == mac }

  lemma ExpectedIs(t: Target, gs: seq<Object>, es: seq<Object>, name: string)
    ensures name in WillExist(t, gs) <==> Expected(t, Preflight(t, gs, es), name)
  {
    hide Text, Listed, MemberVerdict, GroupVerdict;
    NameListed(t.groups, name);
    var vs, report := GroupVerdicts(t, gs), Preflight(t, gs, es);
    GroupParts(t);
    MemberParts(t, WillExist(t, gs));
    assert forall j :: |vs| <= j < |report| ==> report[j] == MemberVerdict(t, WillExist(t, gs), es[j - |vs|]);
    if v :| v in vs && v.action == Create && v.name == name {
      var i :| 0 <= i < |vs| && vs[i] == v;
      assert vs[i] == GroupVerdict(t, gs[i]) && report[i] == v && v in report;
    }
    if v :| v in report && v.reason.family == Groups && v.action == Create && Text(v.obj, Name) == name {
      var i :| 0 <= i < |report| && report[i] == v;
      assert i < |vs|;
      assert vs[i] == v && v in vs && v == GroupVerdict(t, gs[i]);
    }
  }

  lemma GroupParts(t: Target)
    ensures forall g :: GroupVerdict(t, g).reason.family == Groups && GroupVerdict(t, g).obj == g
                        && GroupVerdict(t, g).name == Text(g, Name)
  {
    hide Text, Has;
  }

  lemma MemberParts(t: Target, groups: set<string>)
    ensures forall e :: MemberVerdict(t, groups, e).reason.family == Members && MemberVerdict(t, groups, e).obj == e
  {
    hide Text, Has, MacOf;
  }

  // An endpoint is cleared if and only if it has a MAC no endpoint of the target
  // has, its group is listed or to be created, and its profile is listed.
  lemma MemberClearedExactly(t: Target, gs: seq<Object>, es: seq<Object>, i: nat)
    requires Sound(t) && i < |es|
    ensures |Preflight(t, gs, es)| == |gs| + |es|
    ensures var report, e := Preflight(t, gs, es), es[i];
            var v := report[|gs| + i];
            && v.obj == e && v.reason.family == Members
            && (v.action == Create <==>
                  && MacOf(e) != "" && !MacListed(t, MacOf(e))
                  && (Text(e, GroupName) != "" ==> Expected(t, report, Text(e, GroupName)))
                  && (Text(e, ProfileName) != "" ==> Listed(t.profiles, Text(e, ProfileName))))
            && (v.action == Skip <==> MacOf(e) != "" && MacListed(t, MacOf(e)))
  {
    hide Text, Listed, MacOf, Has, WillExist, Expected;
    NameListed(t.profiles, Text(es[i], ProfileName));
    ExpectedIs(t, gs, es, Text(es[i], GroupName));
    assert MacOf(es[i]) in MacsIn(t.endpoints) <==> MacListed(t, MacOf(es[i]));
  }

  // The reason given holds.
  lemma MemberReasonHolds(t: Target, gs: seq<Object>, es: seq<Object>, i: nat)
    requires Sound(t) && i < |es| && |Preflight(t, gs, es)| == |gs| + |es|
    ensures var report, e := Preflight(t, gs, es), es[i];
            match report[|gs| + i].reason.why
            case Clear => report[|gs| + i].action == Create
            case Nameless => MacOf(e) == ""
            case Exists => MacListed(t, MacOf(e))
            case NoSuchGroup(g) => g == Text(e, GroupName) && g != "" && !Expected(t, report, g)
            case NoSuchProfile(p) => p == Text(e, ProfileName) && p != "" && !Listed(t.profiles, p)
  {
    hide Text, Listed, MacOf, Has, WillExist, Expected;
    NameListed(t.profiles, Text(es[i], ProfileName));
    ExpectedIs(t, gs, es, Text(es[i], GroupName));
    assert MacOf(es[i]) in MacsIn(t.endpoints) <==> MacListed(t, MacOf(es[i]));
  }

  // --- what is sent ---------------------------------------------------------------------------

  // What the older API refuses in a create.
  predicate Refusable(k: Key) {
    k.Other? && k.text in [
      "ipAddress", "vendor", "productId", "serialNumber", "deviceType",
      "softwareRevision", "hardwareRevision", "protocol",
      "assetId", "assetName", "assetIpAddress", "assetVendor", "assetProductId", "assetSerialNumber", "assetDeviceType",
      "assetSwRevision", "assetHwRevision", "assetProtocol", "assetConnectedLinks"]
  }

  lemma RefusableIs(k: Key)
    ensures k in OPENAPI_ONLY <==> Refusable(k)
  {
  }

  // The body of an endpoint has every property the bundle's has but those, nulls
  // and the references aside.
  lemma BodyIs(t: Target, e: Object, k: Key)
    requires Resolved(e, TablesOf(t)).Some? && k !in {GroupId, GroupName, ProfileId, ProfileName}
    ensures var body := Compact(Resolved(e, TablesOf(t)).value);
            && (k in body <==> k in e && e[k] != Null && !Refusable(k))
            && (k in body ==> body[k] == WithoutNulls(e[k]))
  {
    RefusableIs(k);
    hide WithoutNulls, Text, Exchanged, Refusable, OPENAPI_ONLY, TablesOf;
    var tables := TablesOf(t);
    var o := e - OPENAPI_ONLY;
    ExchangeKeeps(o, GroupName, GroupId, tables.groups);
    var g := Exchanged(o, GroupName, GroupId, tables.groups).value;
    ExchangeKeeps(g, ProfileName, ProfileId, tables.profiles);
  }

  // Over a whole run: every endpoint sent, sent whole.
  lemma SentWhole(t: Target, asked: nat, answers: nat -> Answer, report: seq<Verdict>, o: Outcome, k: Key)
    requires o in Apply(t, asked, answers, report).members.log && o.Sent?
    requires k !in {GroupId, GroupName, ProfileId, ProfileName}
    ensures k in o.body <==> k in o.obj && o.obj[k] != Null && !Refusable(k)
    ensures k in o.body ==> o.body[k] == WithoutNulls(o.obj[k])
  {
    hide Resolved, Compact, WithoutNulls, Refusable, Cleared, GroupPass;
    var a := Apply(t, asked, answers, report);
    var es := Cleared(report, Members);
    MemberLog(a.groups.target, a.groups.asked, answers, es);
    var i :| 0 <= i < |a.members.log| && a.members.log[i] == o;
    assert Accounted(o, a.groups.target, es[i]);
    BodyIs(a.groups.target, es[i], k);
  }

  // --- what is counted --------------------------------------------------------------------------

  function HowMany(log: seq<Outcome>, f: Outcome -> bool): nat {
    if log == [] then 0 else HowMany(log[..|log| - 1], f) + if f(log[|log| - 1]) then 1 else 0
  }

  predicate Lands(o: Outcome) { o.Sent? && o.reply == Landed }
  predicate Repeats(o: Outcome) { o.Sent? && o.reply == AlreadyThere }
  predicate Fails(o: Outcome) { o.Unresolved? || (o.Sent? && o.reply == Refused) }

  // What was sent and landed, what was there, and what was refused or could not be
  // sent, each in its own counter.
  ghost predicate Counted(r: Run) {
    r.tally == Tally(HowMany(r.log, Lands), HowMany(r.log, Repeats), 0, HowMany(r.log, Fails))
  }

  lemma OneCounted(s: Run, t: Run, o: Outcome)
    requires Counted(s) && t.log == s.log + [o]
    requires t.tally == if Lands(o) then s.tally.(created := s.tally.created + 1)
                        else if Repeats(o) then s.tally.(skipped := s.tally.skipped + 1)
                        else s.tally.(failed := s.tally.failed + 1)
    ensures Counted(t)
  {
    assert t.log[..|t.log| - 1] == s.log;
  }

  lemma SendCounted(s: Run, answers: nat -> Answer, family: Family, obj: Object, body: Object)
    requires Counted(s)
    ensures Counted(Send(s, answers, family, obj, body))
  {
    hide Counted, Extended, ReplyOf;
    var t := Send(s, answers, family, obj, body);
    OneCounted(s, t, t.log[|s.log|]);
  }

  lemma {:induction false} GroupsCounted(s: Run, answers: nat -> Answer, gs: seq<Object>)
    requires Counted(s)
    ensures Counted(GroupPass(s, answers, gs))
  {
    hide Counted, Send, Compact;
    if gs != [] {
      GroupsCounted(s, answers, gs[..|gs| - 1]);
      SendCounted(GroupPass(s, answers, gs[..|gs| - 1]), answers, Groups, gs[|gs| - 1], Compact(gs[|gs| - 1]));
    }
  }

  lemma {:induction false} MembersCounted(s: Run, answers: nat -> Answer, tables: Tables, es: seq<Object>)
    requires Counted(s)
    ensures Counted(MemberPass(s, answers, tables, es))
  {
    hide Counted, Send, Compact, Resolved, Missing;
    if es != [] {
      var e := es[|es| - 1];
      var m := MemberPass(s, answers, tables, es[..|es| - 1]);
      MembersCounted(s, answers, tables, es[..|es| - 1]);
      match Resolved(e, tables) {
        case None => OneCounted(m, MemberStep(m, answers, tables, e), Unresolved(e, Missing(e, tables)));
        case Some(body) => SendCounted(m, answers, Members, e, Compact(body));
      }
    }
  }

  lemma RunIsCounted(t: Target, asked: nat, answers: nat -> Answer, report: seq<Verdict>)
    ensures Counted(Apply(t, asked, answers, report).groups) && Counted(Apply(t, asked, answers, report).members)
  {
    hide GroupPass, MemberPass, Cleared, TablesOf;
    var g := GroupPass(Begin(t, asked), answers, Cleared(report, Groups));
    GroupsCounted(Begin(t, asked), answers, Cleared(report, Groups));
    MembersCounted(Begin(g.target, g.asked), answers, TablesOf(g.target), Cleared(report, Members));
  }
}
