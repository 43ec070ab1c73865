// Endpoint identity groups and the endpoints in them. An endpoint refers to its
// group, and to a static profile, by UUID on a deployment and by name in a bundle.
module Endpoints {
  import opened Objects
  import opened Report
  import opened TrustSecStore
  import opened Segments
  import Marker

  const PARENT := Other("parentId")

  // What the newer API returns of an endpoint and the older one refuses in a create.
  const OPENAPI_ONLY: set<Key> := {
    Other("ipAddress"), Other("vendor"), Other("productId"), Other("serialNumber"), Other("deviceType"),
    Other("softwareRevision"), Other("hardwareRevision"), Other("protocol"),
    Other("assetId"), Other("assetName"), Other("assetIpAddress"), Other("assetVendor"), Other("assetProductId"),
    Other("assetSerialNumber"), Other("assetDeviceType"), Other("assetSwRevision"),
    Other("assetHwRevision"), Other("assetProtocol"), Other("assetConnectedLinks")}

  // --- the deployment -------------------------------------------------------------

  datatype Target = Target(groups: seq<Object>, profiles: seq<Object>, endpoints: seq<Object>)

  datatype Family = Groups | Members

  ghost predicate Sound(t: Target) { DistinctIds(t.groups) && DistinctIds(t.profiles) }

  // Only an id nothing holds and nothing refers to is minted.
  predicate Mintable(t: Target, id: string) {
    && id != "" && !HoldsId(t.groups, id) && !HoldsId(t.endpoints, id)
    && forall e :: e in t.endpoints ==> Text(e, GroupId) != id
  }

  function ReplyOf(t: Target, a: Answer): Reply {
    match a
    case Accept(id) => if Mintable(t, id) then Landed else Refused
    case Duplicate => AlreadyThere
    case Refuse => Refused
  }

  function Extended(t: Target, family: Family, body: Object, a: Answer): Target {
    if ReplyOf(t, a) != Landed then t
    else if family == Groups then t.(groups := t.groups + [Stored(body, a.id)])
    else t.(endpoints := t.endpoints + [Stored(body, a.id)])
  }

  // --- references -----------------------------------------------------------------

  // One half of a remapping: the value under `from` becomes the entry of the table
  // under `to`. An empty reference is dropped; one the table lacks has no result.
  function Exchanged(o: Object, from: Key, to: Key, table: map<string, string>): Option<Object> {
    if Text(o, from) == "" then Some(o - {from})
    else if Text(o, from) !in table then None
    else Some((o - {from})[to := Str(table[Text(o, from)])])
  }

  function NormMac(m: string): string { Upper(Marker.Trim(m)) }

  function MacOf(e: Object): string {
    if Text(e, Mac) != "" then NormMac(Text(e, Mac)) else NormMac(Text(e, Name))
  }

  function MacsIn(objs: seq<Object>): set<string> { set e | e in objs :: MacOf(e) }

  // --- export ---------------------------------------------------------------------

  predicate IsStatic(e: Object) { Truthy(e, StaticGroup) || Truthy(e, StaticProfile) }

  // What an endpoint becomes in a bundle, if it can be carried.
  function Exported(e: Object, groups: map<string, string>, profiles: map<string, string>): Option<Object> {
    if MacOf(e) == "" then None
    else match Exchanged(e, GroupId, GroupName, groups)
      case None => None
      case Some(o) =>
        var mac := MacOf(e);
        if !Truthy(o, StaticProfile) then Some(StripLocal((o - {ProfileId, Profile})[Mac := Str(mac)]))
        else match Exchanged(o, ProfileId, ProfileName, profiles)
          case None => None
          case Some(p) => Some(StripLocal(p[Mac := Str(mac)]))
  }

  predicate Selected(e: Object, groups: map<string, string>, wanted: seq<string>) {
    Text(e, GroupId) in groups && groups[Text(e, GroupId)] in wanted
  }

  function ExportedAll(es: seq<Object>, groups: map<string, string>, profiles: map<string, string>,
                       wanted: seq<string>): seq<Object> {
    if es == [] then []
    else
      var e := es[|es| - 1];
      ExportedAll(es[..|es| - 1], groups, profiles, wanted)
      + if Selected(e, groups, wanted) && IsStatic(e) && Exported(e, groups, profiles).Some?
        then [Exported(e, groups, profiles).value] else []
  }

  // Nesting is not carried.
  function ExportedGroup(g: Object): Object {
    StripLocal(if Text(g, PARENT) != "" then g - {PARENT} else g)
  }

  function ExportedGroups(gs: seq<Object>, wanted: seq<string>): seq<Object> {
    if gs == [] then []
    else
      var g := gs[|gs| - 1];
      ExportedGroups(gs[..|gs| - 1], wanted) + if Text(g, Name) in wanted then [ExportedGroup(g)] else []
  }

  // --- pre-flight -----------------------------------------------------------------

  datatype Why = Clear | Nameless | Exists | NoSuchGroup(group: string) | NoSuchProfile(profile: string)
  datatype Note = Note(family: Family, why: Why)

  type Verdict = Item<Note>

  predicate Has(table: map<string, string>, name: string) { name in table && table[name] != "" }

  function GroupVerdict(t: Target, g: Object): Verdict {
    var name := Text(g, Name);
    if name == "" then Item(name, Blocked, Note(Groups, Nameless), g)
    else if Has(IdByName(t.groups), name) then Item(name, Skip, Note(Groups, Exists), g)
    else Item(name, Create, Note(Groups, Clear), g)
  }

  function GroupVerdicts(t: Target, gs: seq<Object>): seq<Verdict> {
    seq(|gs|, i requires 0 <= i < |gs| => GroupVerdict(t, gs[i]))
  }

  function ToCreate(vs: seq<Verdict>): set<string> {
    set v | v in vs && v.action == Create :: v.name
  }

  // The groups there will be once this run is done.
  function WillExist(t: Target, gs: seq<Object>): set<string> {
    NamesIn(t.groups) + ToCreate(GroupVerdicts(t, gs))
  }

  function MemberVerdict(t: Target, groups: set<string>, e: Object): Verdict {
    var mac, group, profile := MacOf(e), Text(e, GroupName), Text(e, ProfileName);
    if mac == "" then Item(mac, Blocked, Note(Members, Nameless), e)
    else if mac in MacsIn(t.endpoints) then Item(mac, Skip, Note(Members, Exists), e)
    else if group != "" && group !in groups then Item(mac, Blocked, Note(Members, NoSuchGroup(group)), e)
    else if profile != "" && !Has(IdByName(t.profiles), profile) then
      Item(mac, Blocked, Note(Members, NoSuchProfile(profile)), e)
    else Item(mac, Create, Note(Members, Clear), e)
  }

  function MemberVerdicts(t: Target, groups: set<string>, es: seq<Object>): seq<Verdict> {
    seq(|es|, i requires 0 <= i < |es| => MemberVerdict(t, groups, es[i]))
  }

  function Preflight(t: Target, gs: seq<Object>, es: seq<Object>): seq<Verdict> {
    GroupVerdicts(t, gs) + MemberVerdicts(t, WillExist(t, gs), es)
  }

  // --- apply ----------------------------------------------------------------------

  // The objects of one family that the report clears, in order.
  function Cleared(report: seq<Verdict>, family: Family): seq<Object> {
    if report == [] then []
    else
      var v := report[|report| - 1];
      Cleared(report[..|report| - 1], family) + if v.reason.family == family && v.action == Create then [v.obj] else []
  }

  datatype Outcome =
    | Unresolved(obj: Object, missing: string)
    | Sent(obj: Object, before: Target, body: Object, reply: Reply)

  predicate HasLanded(o: Outcome) { o.Sent? && o.reply == Landed }

  datatype Run = Run(target: Target, asked: nat, log: seq<Outcome>, tally: Tally)

  function Send(s: Run, answers: nat -> Answer, family: Family, obj: Object, body: Object): Run {
    var a := answers(s.asked);
    var reply := ReplyOf(s.target, a);
    Run(Extended(s.target, family, body, a), s.asked + 1, s.log + [Sent(obj, s.target, body, reply)],
        match reply
        case Landed => s.tally.(created := s.tally.created + 1)
        case AlreadyThere => s.tally.(skipped := s.tally.skipped + 1)
        case Refused => s.tally.(failed := s.tally.failed + 1))
  }

  function GroupPass(s: Run, answers: nat -> Answer, gs: seq<Object>): Run {
    if gs == [] then s
    else
      var g := gs[|gs| - 1];
      Send(GroupPass(s, answers, gs[..|gs| - 1]), answers, Groups, g, Compact(g))
  }

  datatype Tables = Tables(groups: map<string, string>, profiles: map<string, string>)

  function TablesOf(t: Target): Tables { Tables(IdByName(t.groups), IdByName(t.profiles)) }

  // An endpoint with the target's ids in place of the names it carries.
  function Resolved(e: Object, tables: Tables): Option<Object> {
    match Exchanged(e - OPENAPI_ONLY, GroupName, GroupId, tables.groups)
    case None => None
    case Some(o) => Exchanged(o, ProfileName, ProfileId, tables.profiles)
  }

  function Missing(e: Object, tables: Tables): string {
    if Exchanged(e - OPENAPI_ONLY, GroupName, GroupId, tables.groups).None? then Text(e, GroupName)
    else Text(e, ProfileName)
  }

  function MemberStep(s: Run, answers: nat -> Answer, tables: Tables, e: Object): Run {
    match Resolved(e, tables)
    case None => s.(log := s.log + [Unresolved(e, Missing(e, tables))], tally := s.tally.(failed := s.tally.failed + 1))
    case Some(body) => Send(s, answers, Members, e, Compact(body))
  }

  function MemberPass(s: Run, answers: nat -> Answer, tables: Tables, es: seq<Object>): Run {
    if es == [] then s
    else MemberStep(MemberPass(s, answers, tables, es[..|es| - 1]), answers, tables, es[|es| - 1])
  }

  // Groups first; the ids are read once they are in.
  datatype Applied = Applied(groups: Run, members: Run)

  function Begin(t: Target, asked: nat): Run { Run(t, asked, [], Tally(0, 0, 0, 0)) }

  function Apply(t: Target, asked: nat, answers: nat -> Answer, report: seq<Verdict>): Applied {
    var g := GroupPass(Begin(t, asked), answers, Cleared(report, Groups));
    Applied(g, MemberPass(Begin(g.target, g.asked), answers, TablesOf(g.target), Cleared(report, Members)))
  }
}
