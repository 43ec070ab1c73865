// TrustSec: what pre-flight decides about each security group, SGACL and egress
// cell of a bundle, what apply sends for it, and what an export makes of a cell.
// Every cross-reference is a UUID on a deployment and a name in a bundle.
module TrustSec {
  import opened Objects
  import opened Report
  import opened TrustSecStore
  import Drift

  const KIND_SGT := "sgt"
  const KIND_SGACL := "sgacl"
  const KIND_CELL := "egressCell"

  // The group the default egress cell points at.
  const ANY := "ANY"

  datatype Reason =
    | NoReason
    | ValueHeld(holder: string)
    | Exists(drift: set<Key>)
    | DefaultCell(differs: Option<CellDiff>)
    | Unnamed
    | NoSuchGroup(group: string)
    | NoSuchSgacl(sgacl: string)
    | PairTaken(diff: CellDiff)

  datatype CellDiff = CellDiff(rule: bool, status: bool, sgacls: bool)

  type Verdict = Item<Reason>

  function KindOf(o: Object): string { Text(o, Kind) }

  function OfKind(kind: string, items: seq<Object>): seq<Object> {
    if items == [] then []
    else OfKind(kind, items[..|items| - 1]) + if KindOf(items[|items| - 1]) == kind then [items[|items| - 1]] else []
  }

  // --- security groups and SGACLs ---------------------------------------------

  function TagOf(o: Object): Option<real> {
    if TagValue in o && o[TagValue].Num? then Some(o[TagValue].n) else None
  }

  // Tag value -> the name holding it.
  function Holders(objs: seq<Object>): map<real, string> {
    if objs == [] then map[]
    else
      var last := objs[|objs| - 1];
      var before := Holders(objs[..|objs| - 1]);
      if TagOf(last).Some? then before[TagOf(last).value := Text(last, Name)] else before
  }

  // What of an object can travel: its id, links and local counters cannot.
  function Portable(o: Object): Object { StripLocal(o - {GenerationId, MatrixId}) }

  // Without the properties whose value carries no information.
  function WithoutZeroes(o: Object): Object {
    map k | k in o && o[k] !in [Null, Bool(false), Str(""), Arr([])] :: o[k]
  }

  function ExistsDrift(mine: Object, theirs: Object): set<Key> {
    Drift.Drifted(WithoutZeroes(mine), WithoutZeroes(Portable(theirs)))
  }

  function SgtVerdict(st: Store, item: Object): Verdict {
    var name := Text(item, Name);
    var held := TagOf(item).Some? && TagOf(item).value in Holders(st.sgts);
    if held && Holders(st.sgts)[TagOf(item).value] != name then
      Item(name, Skip, ValueHeld(Holders(st.sgts)[TagOf(item).value]), item)
    else if name in IndexByName(st.sgts) then
      Item(name, Skip, Exists(ExistsDrift(item, IndexByName(st.sgts)[name])), item)
    else Item(name, Create, NoReason, item)
  }

  function SgaclVerdict(st: Store, item: Object): Verdict {
    var name := Text(item, Name);
    if name in IndexByName(st.sgacls) then
      Item(name, Skip, Exists(ExistsDrift(item, IndexByName(st.sgacls)[name])), item)
    else Item(name, Create, NoReason, item)
  }

  // --- egress cells -----------------------------------------------------------

  // A cell is identified by the pair it governs, not by its own name.
  function CellKey(src: string, dst: string): string { src + "\0" + dst }

  function CellKeyOf(st: Store, cell: Object): string {
    CellKey(SgtName(st, Text(cell, SourceSgtId)), SgtName(st, Text(cell, DestinationSgtId)))
  }

  function CellIndex(st: Store, cells: seq<Object>): map<string, Object> {
    if cells == [] then map[]
    else CellIndex(st, cells[..|cells| - 1])[CellKeyOf(st, cells[|cells| - 1]) := cells[|cells| - 1]]
  }

  function RuleOf(cell: Object): string {
    if Text(cell, DefaultRule) != "" then Text(cell, DefaultRule) else "NONE"
  }

  function FirstAbsent(names: seq<string>, have: set<string>): Option<string> {
    if names == [] then None
    else if names[0] !in have then Some(names[0])
    else FirstAbsent(names[1..], have)
  }

  // Why a cell cannot be written, if it cannot. It is blocked whole.
  function CellBlocked(cell: Object, groups: set<string>, sgacls: set<string>): Reason {
    var src, dst := Text(cell, SourceSgtName), Text(cell, DestinationSgtName);
    if src == "" || dst == "" then Unnamed
    else if src !in groups then NoSuchGroup(src)
    else if dst !in groups then NoSuchGroup(dst)
    else match FirstAbsent(NameList(cell, SgaclNames), sgacls)
      case Some(name) => NoSuchSgacl(name)
      case None => NoReason
  }

  // How an existing cell differs from the bundle's.
  function CellDrift(st: Store, mine: Object, theirs: Object): CellDiff {
    CellDiff(
      RuleOf(mine) != RuleOf(theirs),
      Text(mine, MatrixCellStatus) != "" && Text(mine, MatrixCellStatus) != Text(theirs, MatrixCellStatus),
      NameList(mine, SgaclNames) != SgaclNamesOf(st, NameList(theirs, Sgacls)))
  }

  // How the default cell differs from the target's own, when that could be read. It
  // is compared by its rule and its SGACLs alone.
  function DefaultDiff(st: Store, item: Object): Option<CellDiff> {
    if CellKey(ANY, ANY) in CellIndex(st, st.cells) then
      Some(CellDrift(st, item, CellIndex(st, st.cells)[CellKey(ANY, ANY)]).(status := false))
    else None
  }

  // A cell that may be written and holds both a catch-all rule and SGACLs, which
  // a target takes only under a setting no read shows.
  predicate TwoRules(groups: set<string>, sgacls: set<string>, item: Object) {
    && !(Text(item, SourceSgtName) == ANY && Text(item, DestinationSgtName) == ANY)
    && CellBlocked(item, groups, sgacls) == NoReason
    && RuleOf(item) != "NONE" && NameList(item, SgaclNames) != []
  }

  // The cells noted for that, by name.
  function Noted(groups: set<string>, sgacls: set<string>, cells: seq<Object>): seq<string> {
    if cells == [] then []
    else
      var c := cells[|cells| - 1];
      Noted(groups, sgacls, cells[..|cells| - 1]) + if TwoRules(groups, sgacls, c) then [Text(c, Name)] else []
  }

  function CellVerdict(st: Store, groups: set<string>, sgacls: set<string>, item: Object): Verdict {
    var name, src, dst := Text(item, Name), Text(item, SourceSgtName), Text(item, DestinationSgtName);
    if src == ANY && dst == ANY then Item(name, Skip, DefaultCell(DefaultDiff(st, item)), item)
    else if CellBlocked(item, groups, sgacls) != NoReason then
      Item(name, Skip, CellBlocked(item, groups, sgacls), item)
    else if CellKey(src, dst) in CellIndex(st, st.cells) then
      Item(name, Skip, PairTaken(CellDrift(st, item, CellIndex(st, st.cells)[CellKey(src, dst)])), item)
    else Item(name, Create, NoReason, item)
  }

  // --- the report -------------------------------------------------------------

  function SgtVerdicts(st: Store, items: seq<Object>): seq<Verdict> {
    seq(|items|, i requires 0 <= i < |items| => SgtVerdict(st, items[i]))
  }

  function SgaclVerdicts(st: Store, items: seq<Object>): seq<Verdict> {
    seq(|items|, i requires 0 <= i < |items| => SgaclVerdict(st, items[i]))
  }

  function CellVerdicts(st: Store, groups: set<string>, sgacls: set<string>, items: seq<Object>): seq<Verdict> {
    seq(|items|, i requires 0 <= i < |items| => CellVerdict(st, groups, sgacls, items[i]))
  }

  function ToCreate(vs: seq<Verdict>): set<string> {
    set v | v in vs && v.action == Create :: v.name
  }

  // The groups and the SGACLs there will be once this run is done, as pre-flight
  // counts on them: the target's own and the ones it has cleared for creation.
  function WillExistSgts(st: Store, items: seq<Object>): set<string> {
    NamesIn(st.sgts) + ToCreate(SgtVerdicts(st, OfKind(KIND_SGT, items)))
  }

  function WillExistSgacls(st: Store, items: seq<Object>): set<string> {
    NamesIn(st.sgacls) + ToCreate(SgaclVerdicts(st, OfKind(KIND_SGACL, items)))
  }

  function Preflight(st: Store, items: seq<Object>): seq<Verdict> {
    SgtVerdicts(st, OfKind(KIND_SGT, items))
    + SgaclVerdicts(st, OfKind(KIND_SGACL, items))
    + CellVerdicts(st, WillExistSgts(st, items), WillExistSgacls(st, items), OfKind(KIND_CELL, items))
  }

  // --- apply ------------------------------------------------------------------

  datatype Ids = Ids(sgts: map<string, string>, sgacls: map<string, string>)

  function IdsOf(st: Store): Ids { Ids(IdByName(st.sgts), IdByName(st.sgacls)) }

  // The first name of a cell the target has no id for.
  function MissingRef(cell: Object, ids: Ids): Option<string> {
    var src, dst := Text(cell, SourceSgtName), Text(cell, DestinationSgtName);
    if src !in ids.sgts then Some(src)
    else if dst !in ids.sgts then Some(dst)
    else FirstAbsent(NameList(cell, SgaclNames), ids.sgacls.Keys)
  }

  lemma {:induction false} NoneAbsent(names: seq<string>, have: set<string>)
    ensures FirstAbsent(names, have).None? <==> forall n :: n in names ==> n in have
  {
    if names != [] {
      NoneAbsent(names[1..], have);
      assert forall n :: n in names <==> n == names[0] || n in names[1..];
    }
  }

  function IdsFor(names: seq<string>, ids: map<string, string>): seq<string>
    requires forall n :: n in names ==> n in ids
  {
    seq(|names|, i requires 0 <= i < |names| => ids[names[i]])
  }

  // The cell with the target's ids in place of the carried names.
  ghost function Resolved(cell: Object, ids: Ids): Object
    requires MissingRef(cell, ids).None?
  {
    var names := NameList(cell, SgaclNames);
    NoneAbsent(names, ids.sgacls.Keys);
    var o := (cell - {SourceSgtName, DestinationSgtName, SgaclNames})
      [SourceSgtId := Str(ids.sgts[Text(cell, SourceSgtName)])]
      [DestinationSgtId := Str(ids.sgts[Text(cell, DestinationSgtName)])];
    if names == [] then o else o[Sgacls := Arr(AsList(IdsFor(names, ids.sgacls)))]
  }

  // What became of one item of the report.
  datatype Outcome =
    | Counted                     // a skip or a block, counted as such
    | UnknownKind
    | Unresolved(missing: string)
    | Sent(before: Store, where: Collection, body: Object, reply: Reply)
    | NotReached                  // apply returned before it

  predicate HasLanded(o: Outcome) { o.Sent? && o.reply == Landed }

  datatype Run = Run(store: Store, asked: nat, ids: Option<Ids>, log: seq<Outcome>, tally: Tally, halted: bool)

  function Start(st: Store, asked: nat): Run {
    Run(st, asked, None, [], Tally(0, 0, 0, 0), false)
  }

  function Tallied(t: Tally, r: Reply): Tally {
    match r
    case Landed => t.(created := t.created + 1)
    case AlreadyThere => t.(skipped := t.skipped + 1)
    case Refused => t.(failed := t.failed + 1)
  }

  ghost function Send(s: Run, answers: nat -> Answer, where: Collection, body: Object): Run {
    var a := answers(s.asked);
    var reply := ReplyTo(s.store, a);
    s.(store := After(s.store, where, body, a), asked := s.asked + 1,
       log := s.log + [Sent(s.store, where, body, reply)], tally := Tallied(s.tally, reply))
  }

  // A cell needs the target's ids, which are read once, at the first cell; when
  // they cannot be read, apply returns.
  ghost function AttemptCell(s: Run, answers: nat -> Answer, readable: bool, cell: Object): Run {
    if s.ids.None? && !readable then s.(halted := true, log := s.log + [NotReached])
    else
      var ids := if s.ids.Some? then s.ids.value else IdsOf(s.store);
      var t := s.(ids := Some(ids));
      if MissingRef(cell, ids).Some? then
        t.(log := t.log + [Unresolved(MissingRef(cell, ids).value)], tally := t.tally.(failed := t.tally.failed + 1))
      else Send(t, answers, Cells, Compact(Resolved(cell, ids)))
  }

  ghost function Attempt(s: Run, answers: nat -> Answer, readable: bool, kind: string, obj: Object): Run {
    if kind == KIND_SGT then Send(s, answers, Sgts, Compact(obj))
    else if kind == KIND_SGACL then Send(s, answers, Sgacls_, Compact(obj))
    else if kind == KIND_CELL then AttemptCell(s, answers, readable, obj)
    else s.(log := s.log + [UnknownKind], tally := s.tally.(failed := s.tally.failed + 1))
  }

  // One item of the report.
  ghost function Step(s: Run, answers: nat -> Answer, readable: bool, it: Verdict): Run {
    if s.halted then s.(log := s.log + [NotReached])
    else if it.action == Skip then
      s.(log := s.log + [Counted], tally := s.tally.(skipped := s.tally.skipped + 1))
    else if it.action != Create then
      s.(log := s.log + [Counted], tally := s.tally.(blocked := s.tally.blocked + 1))
    else Attempt(s, answers, readable, KindOf(it.obj), it.obj - {Kind})
  }

  ghost function Apply(s: Run, answers: nat -> Answer, readable: bool, report: seq<Verdict>): Run {
    if report == [] then s
    else Step(Apply(s, answers, readable, report[..|report| - 1]), answers, readable, report[|report| - 1])
  }

  // --- export -----------------------------------------------------------------

  ghost function ExportObject(o: Object, kind: string): Object {
    Portable(o[Kind := Str(kind)])
  }

  function NamedRef(cell: Object, from: Key, to: Key, name: string): Object {
    if Text(cell, from) == "" then cell else (cell - {from})[to := Str(name)]
  }

  ghost function NamedSgacls(st: Store, cell: Object): Object {
    if Sgacls in cell && cell[Sgacls].Arr? then
      var names := SgaclNamesOf(st, NameList(cell, Sgacls));
      if names == [] then cell - {Sgacls} else (cell - {Sgacls})[SgaclNames := Arr(AsList(names))]
    else cell
  }

  // A cell as the bundle carries it.
  ghost function ExportCell(st: Store, cell: Object): Object {
    var c0 := cell[Kind := Str(KIND_CELL)];
    var c1 := NamedRef(c0, SourceSgtId, SourceSgtName, SgtName(st, Text(c0, SourceSgtId)));
    var c2 := NamedRef(c1, DestinationSgtId, DestinationSgtName, SgtName(st, Text(c1, DestinationSgtId)));
    Portable(NamedSgacls(st, c2))
  }

  // What a cell says, whichever deployment holds it: names for the references.
  datatype Policy = Policy(src: string, dst: string, sgacls: seq<string>, rule: string, status: string)

  function Meaning(st: Store, cell: Object): Policy {
    Policy(SgtName(st, Text(cell, SourceSgtId)), SgtName(st, Text(cell, DestinationSgtId)),
           SgaclNamesOf(st, NameList(cell, Sgacls)), RuleOf(cell), Text(cell, MatrixCellStatus))
  }

  // The same, read off a bundle's copy.
  function Carried(cell: Object): Policy {
    Policy(Text(cell, SourceSgtName), Text(cell, DestinationSgtName),
           NameList(cell, SgaclNames), RuleOf(cell), Text(cell, MatrixCellStatus))
  }
}
