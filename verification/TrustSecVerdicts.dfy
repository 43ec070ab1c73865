// Which groups, SGACLs and cells pre-flight clears, said of the bundle, the target
// and the report alone.
module TrustSecVerdicts {
  import opened Objects
  import opened Report
  import opened TrustSecStore
  import opened TrustSec
  import opened TrustSecTheorems
  import Segments
  import Picking
  import Marker

  // --- the items reported -----------------------------------------------------------

  function ObjsOf(report: seq<Verdict>): seq<Object> {
    seq(|report|, i requires 0 <= i < |report| => report[i].obj)
  }

  lemma {:induction false} OfKindCounts(kind: string, items: seq<Object>)
    ensures forall o :: multiset(OfKind(kind, items))[o] == if Text(o, Kind) == kind then multiset(items)[o] else 0
  {
    hide Text;
    if items != [] {
      var n := |items| - 1;
      OfKindCounts(kind, items[..n]);
      assert items == items[..n] + [items[n]];
    }
  }

  // Every group, SGACL and cell of the bundle is reported, as often as it is there,
  // and nothing else.
  lemma ReportsEveryItem(st: Store, items: seq<Object>)
    ensures forall o :: multiset(ObjsOf(Preflight(st, items)))[o] ==
              if Text(o, Kind) in ["sgt", "sgacl", "egressCell"] then multiset(items)[o] else 0
  {
    var gs, as_, cs := OfKind(KIND_SGT, items), OfKind(KIND_SGACL, items), OfKind(KIND_CELL, items);
    ObjsAre(st, items);
    OfKindCounts(KIND_SGT, items);
    OfKindCounts(KIND_SGACL, items);
    OfKindCounts(KIND_CELL, items);
    hide Preflight, OfKind, Text, ObjsOf;
    ThreeParts(gs, as_, cs);
  }

  lemma ThreeParts(a: seq<Object>, b: seq<Object>, c: seq<Object>)
    ensures forall o :: multiset(a + b + c)[o] == multiset(a)[o] + multiset(b)[o] + multiset(c)[o]
  {
    assert multiset(a + b + c) == multiset(a) + multiset(b) + multiset(c);
  }

  // No kind is reported before one it may refer to.
  lemma ReportsInOrder(st: Store, items: seq<Object>, i: nat, j: nat)
    requires i < j < |Preflight(st, items)|
    ensures var a, b := Text(Preflight(st, items)[i].obj, Kind), Text(Preflight(st, items)[j].obj, Kind);
            && (b == "sgt" ==> a == "sgt")
            && (a == "egressCell" ==> b == "egressCell")
  {
    hide Preflight, OfKind, Text, SgtVerdict, SgaclVerdict, CellVerdict, WillExistSgts, WillExistSgacls;
    VerdictAt(st, items, i);
    VerdictAt(st, items, j);
  }

  lemma ObjsAre(st: Store, items: seq<Object>)
    ensures ObjsOf(Preflight(st, items)) ==
            OfKind(KIND_SGT, items) + OfKind(KIND_SGACL, items) + OfKind(KIND_CELL, items)
  {
    var gs, as_, cs := OfKind(KIND_SGT, items), OfKind(KIND_SGACL, items), OfKind(KIND_CELL, items);
    hide OfKind, WillExistSgts, WillExistSgacls;
    VerdictObj(st, WillExistSgts(st, items), WillExistSgacls(st, items));
    hide SgtVerdict, SgaclVerdict, CellVerdict;
    assert ObjsOf(Preflight(st, items)) == gs + as_ + cs;
  }

  // --- groups and SGACLs --------------------------------------------------------------

  ghost predicate Listed(objs: seq<Object>, name: string) { exists o :: o in objs && Text(o, Name) == name }

  // A group listed on the target carries the item's tag value.
  ghost predicate ValueTaken(objs: seq<Object>, item: Object) {
    && TagValue in item && item[TagValue].Num?
    && exists o :: o in objs && TagValue in o && o[TagValue] == item[TagValue]
  }

  // A group is cleared if and only if no group of its name is listed and no listed
  // group has its tag value.
  lemma GroupClearedExactly(st: Store, items: seq<Object>, i: nat)
    requires i < |Preflight(st, items)| && Text(Preflight(st, items)[i].obj, Kind) == "sgt"
    ensures var v := Preflight(st, items)[i];
            v.action == Create <==> !Listed(st.sgts, Text(v.obj, Name)) && !ValueTaken(st.sgts, v.obj)
  {
    VerdictAt(st, items, i);
    var item := Preflight(st, items)[i].obj;
    IndexKeys(st.sgts);
    if TagOf(item).Some? {
      HolderListed(st.sgts, TagOf(item).value);
    }
  }

  lemma {:induction false} HolderIs(objs: seq<Object>, v: real)
    requires v in Holders(objs)
    ensures exists o :: o in objs && TagOf(o) == Some(v) && Text(o, Name) == Holders(objs)[v]
  {
    hide TagOf, Text;
    var n := |objs| - 1;
    assert objs[n] in objs;
    if TagOf(objs[n]) != Some(v) {
      HolderIs(objs[..n], v);
      var o :| o in objs[..n] && TagOf(o) == Some(v) && Text(o, Name) == Holders(objs[..n])[v];
      assert o in objs;
    }
  }

  // An SGACL is cleared if and only if none of its name is listed.
  lemma SgaclClearedExactly(st: Store, items: seq<Object>, i: nat)
    requires i < |Preflight(st, items)| && Text(Preflight(st, items)[i].obj, Kind) == "sgacl"
    ensures var v := Preflight(st, items)[i];
            v.action == Create <==> !Listed(st.sgacls, Text(v.obj, Name))
  {
    VerdictAt(st, items, i);
    IndexKeys(st.sgacls);
  }

  // --- cells ----------------------------------------------------------------------------

  // The name is one the target lists, or one this report clears for creation.
  ghost predicate Expected(objs: seq<Object>, report: seq<Verdict>, kind: string, name: string) {
    || Listed(objs, name)
    || exists v :: v in report && Text(v.obj, Kind) == kind && v.action == Create && Text(v.obj, Name) == name
  }

  // The target's cell governs the pair, as the program tells pairs apart: by their
  // names with a NUL between them.
  ghost predicate Governs(st: Store, cell: Object, src: string, dst: string) {
    SgtName(st, Text(cell, SourceSgtId)) + "\0" + SgtName(st, Text(cell, DestinationSgtId)) == src + "\0" + dst
  }

  // That is the pair itself for names without one.
  lemma GovernsThePair(st: Store, cell: Object, src: string, dst: string)
    requires '\0' !in src && '\0' !in SgtName(st, Text(cell, SourceSgtId))
    ensures Governs(st, cell, src, dst) <==>
              SgtName(st, Text(cell, SourceSgtId)) == src && SgtName(st, Text(cell, DestinationSgtId)) == dst
  {
    hide SgtName;
    NulSplits(SgtName(st, Text(cell, SourceSgtId)), SgtName(st, Text(cell, DestinationSgtId)), src, dst);
  }

  lemma NulSplits(a: string, b: string, c: string, d: string)
    requires '\0' !in a && '\0' !in c
    ensures a + "\0" + b == c + "\0" + d <==> a == c && b == d
  {
    var x, y := a + ['\0'] + b, c + ['\0'] + d;
    assert a + "\0" + b == x && c + "\0" + d == y;
    Segments.SplitAt(a, b, '\0');
    Segments.SplitAt(c, d, '\0');
    Segments.SplitPlain(a, '\0');
    Segments.SplitPlain(c, '\0');
    assert Segments.Split(x, '\0')[0] == a && Segments.Split(y, '\0')[0] == c;
    assert b == x[|a| + 1..] && d == y[|c| + 1..];
  }

  ghost predicate Writable(st: Store, report: seq<Verdict>, cell: Object) {
    var src, dst := Text(cell, SourceSgtName), Text(cell, DestinationSgtName);
    && !(src == "ANY" && dst == "ANY")
    && src != "" && dst != ""
    && Expected(st.sgts, report, "sgt", src) && Expected(st.sgts, report, "sgt", dst)
    && (forall n :: n in NameList(cell, SgaclNames) ==> Expected(st.sgacls, report, "sgacl", n))
    && !exists c :: c in st.cells && Governs(st, c, src, dst)
  }

  // A cell is cleared if and only if it is not the default cell, names both groups,
  // everything it names is there or about to be, and no cell of the target governs
  // its pair.
  lemma CellClearedExactly(st: Store, items: seq<Object>, i: nat)
    requires i < |Preflight(st, items)| && Text(Preflight(st, items)[i].obj, Kind) == "egressCell"
    ensures var report := Preflight(st, items);
            report[i].action == Create <==> Writable(st, report, report[i].obj)
  {
    var report := Preflight(st, items);
    var cell := report[i].obj;
    VerdictAt(st, items, i);
    var groups, acls := WillExistSgts(st, items), WillExistSgacls(st, items);
    ExpectedGroups(st, items);
    ExpectedSgacls(st, items);
    CellIndexed(st, Text(cell, SourceSgtName), Text(cell, DestinationSgtName));
    NoneAbsent(NameList(cell, SgaclNames), acls);
    hide Preflight, WillExistSgts, WillExistSgacls, CellIndex, Governs, Expected, Text, NameList;
  }

  lemma CellIndexed(st: Store, src: string, dst: string)
    ensures CellKey(src, dst) in CellIndex(st, st.cells) <==> exists c :: c in st.cells && Governs(st, c, src, dst)
  {
    IndexedKeys(st, st.cells, CellKey(src, dst));
  }

  lemma {:induction false} IndexedKeys(st: Store, cells: seq<Object>, key: string)
    ensures key in CellIndex(st, cells) <==> exists c :: c in cells && CellKeyOf(st, c) == key
  {
    hide CellKeyOf;
    if cells != [] {
      var n := |cells| - 1;
      IndexedKeys(st, cells[..n], key);
      assert cells == cells[..n] + [cells[n]];
    }
  }

  lemma SgtVerdictNames(st: Store, items: seq<Object>)
    ensures forall v :: v in SgtVerdicts(st, items) ==> v.name == Text(v.obj, Name)
  {
    hide Text, IndexByName, Holders, ExistsDrift;
  }

  lemma SgaclVerdictNames(st: Store, items: seq<Object>)
    ensures forall v :: v in SgaclVerdicts(st, items) ==> v.name == Text(v.obj, Name)
  {
    hide Text, IndexByName, ExistsDrift;
  }

  // The verdicts of one kind are a stretch of the report: those of that kind in it.
  ghost predicate PartOf(part: seq<Verdict>, report: seq<Verdict>, kind: string) {
    forall v :: v in part <==> v in report && KindOf(v.obj) == kind
  }

  lemma PartsOfReport(st: Store, items: seq<Object>)
    ensures PartOf(SgtVerdicts(st, OfKind(KIND_SGT, items)), Preflight(st, items), KIND_SGT)
    ensures PartOf(SgaclVerdicts(st, OfKind(KIND_SGACL, items)), Preflight(st, items), KIND_SGACL)
  {
    var gs, as_, cs := OfKind(KIND_SGT, items), OfKind(KIND_SGACL, items), OfKind(KIND_CELL, items);
    var groups, acls := WillExistSgts(st, items), WillExistSgacls(st, items);
    OfKindHas(KIND_SGT, items);
    OfKindHas(KIND_SGACL, items);
    OfKindHas(KIND_CELL, items);
    VerdictObj(st, groups, acls);
    var a, b, c := SgtVerdicts(st, gs), SgaclVerdicts(st, as_), CellVerdicts(st, groups, acls, cs);
    assert Preflight(st, items) == a + b + c;
    hide Preflight, OfKind, SgtVerdict, SgaclVerdict, CellVerdict, WillExistSgts, WillExistSgacls, Text;
    forall v
      ensures v in a ==> KindOf(v.obj) == KIND_SGT
      ensures v in b ==> KindOf(v.obj) == KIND_SGACL
      ensures v in c ==> KindOf(v.obj) == KIND_CELL
    {
      if v in a {
        var i :| 0 <= i < |a| && a[i] == v;
        assert v.obj == gs[i] && gs[i] in gs;
      }
      if v in b {
        var i :| 0 <= i < |b| && b[i] == v;
        assert v.obj == as_[i] && as_[i] in as_;
      }
      if v in c {
        var i :| 0 <= i < |c| && c[i] == v;
        assert v.obj == cs[i] && cs[i] in cs;
      }
    }
    hide SgtVerdicts, SgaclVerdicts, CellVerdicts;
    InThree(a, b, c);
  }

  lemma InThree(a: seq<Verdict>, b: seq<Verdict>, c: seq<Verdict>)
    ensures forall v :: v in a + b + c <==> v in a || v in b || v in c
  {
  }

  lemma ExpectedIs(objs: seq<Object>, part: seq<Verdict>, report: seq<Verdict>, kind: string, n: string)
    requires PartOf(part, report, kind) && forall v :: v in part ==> v.name == Text(v.obj, Name)
    ensures n in NamesIn(objs) + ToCreate(part) <==> Expected(objs, report, kind, n)
  {
    hide Text;
  }

  lemma ExpectedGroups(st: Store, items: seq<Object>)
    ensures forall n :: n in WillExistSgts(st, items) <==> Expected(st.sgts, Preflight(st, items), "sgt", n)
  {
    hide Preflight, OfKind, SgtVerdicts, Text, NamesIn, ToCreate, Expected, PartOf;
    PartsOfReport(st, items);
    SgtVerdictNames(st, OfKind(KIND_SGT, items));
    forall n
      ensures n in WillExistSgts(st, items) <==> Expected(st.sgts, Preflight(st, items), "sgt", n)
    {
      ExpectedIs(st.sgts, SgtVerdicts(st, OfKind(KIND_SGT, items)), Preflight(st, items), "sgt", n);
    }
  }

  lemma ExpectedSgacls(st: Store, items: seq<Object>)
    ensures forall n :: n in WillExistSgacls(st, items) <==> Expected(st.sgacls, Preflight(st, items), "sgacl", n)
  {
    hide Preflight, OfKind, SgaclVerdicts, Text, NamesIn, ToCreate, Expected, PartOf;
    PartsOfReport(st, items);
    SgaclVerdictNames(st, OfKind(KIND_SGACL, items));
    forall n
      ensures n in WillExistSgacls(st, items) <==> Expected(st.sgacls, Preflight(st, items), "sgacl", n)
    {
      ExpectedIs(st.sgacls, SgaclVerdicts(st, OfKind(KIND_SGACL, items)), Preflight(st, items), "sgacl", n);
    }
  }

  // --- the reasons given -----------------------------------------------------------------

  // What the reason of a cell that is not cleared says is so, and what of the cases
  // it is the first.
  lemma CellReasonHolds(st: Store, items: seq<Object>, i: nat)
    requires i < |Preflight(st, items)| && Text(Preflight(st, items)[i].obj, Kind) == "egressCell"
    ensures var report := Preflight(st, items);
            var cell := report[i].obj;
            var src, dst := Text(cell, SourceSgtName), Text(cell, DestinationSgtName);
            && (report[i].reason.DefaultCell? <==> src == "ANY" && dst == "ANY")
            && (report[i].reason.Unnamed? ==> src == "" || dst == "")
            && (report[i].reason.NoSuchGroup? ==>
                  report[i].reason.group in [src, dst] && !Expected(st.sgts, report, "sgt", report[i].reason.group))
            && (report[i].reason.NoSuchSgacl? ==>
                  && report[i].reason.sgacl in NameList(cell, SgaclNames)
                  && !Expected(st.sgacls, report, "sgacl", report[i].reason.sgacl))
            && (report[i].reason.PairTaken? ==>
                  exists c :: c in st.cells && Governs(st, c, src, dst)
                    && report[i].reason.diff == CellDrift(st, cell, c))
            && (report[i].action != Create ==> !report[i].reason.NoReason?)
  {
    var report := Preflight(st, items);
    var cell := report[i].obj;
    VerdictAt(st, items, i);
    ExpectedGroups(st, items);
    ExpectedSgacls(st, items);
    AbsentIsListed(NameList(cell, SgaclNames), WillExistSgacls(st, items));
    var key := CellKey(Text(cell, SourceSgtName), Text(cell, DestinationSgtName));
    if key in CellIndex(st, st.cells) { IndexedIs(st, st.cells, key); }
    hide Preflight, WillExistSgts, WillExistSgacls, CellIndex, Expected, Text, NameList, CellDrift, SgtName;
  }

  lemma {:induction false} AbsentIsListed(names: seq<string>, have: set<string>)
    ensures FirstAbsent(names, have).Some? ==>
              FirstAbsent(names, have).value in names && FirstAbsent(names, have).value !in have
  {
    if names != [] { AbsentIsListed(names[1..], have); }
  }

  lemma {:induction false} IndexedIs(st: Store, cells: seq<Object>, key: string)
    requires key in CellIndex(st, cells)
    ensures CellIndex(st, cells)[key] in cells && CellKeyOf(st, CellIndex(st, cells)[key]) == key
  {
    hide CellKeyOf;
    var n := |cells| - 1;
    if CellKeyOf(st, cells[n]) != key { IndexedIs(st, cells[..n], key); }
  }

  // --- differences -----------------------------------------------------------------------

  // A default rule that is left out is the rule NONE.
  function RuleRead(cell: Object): string {
    if Text(cell, DefaultRule) in ["", "NONE"] then "NONE" else Text(cell, DefaultRule)
  }

  // A difference is reported if and only if there is one: of the default rules; of
  // the statuses, when the bundle's cell has one; of the SGACLs, in number, name or
  // order, an id the target does not resolve standing for itself.
  lemma CellDriftExactly(st: Store, mine: Object, theirs: Object)
    ensures var d := CellDrift(st, mine, theirs);
            var names, ids := NameList(mine, SgaclNames), NameList(theirs, Sgacls);
            && (d.rule <==> RuleRead(mine) != RuleRead(theirs))
            && (d.status <==>
                  Text(mine, MatrixCellStatus) != "" && Text(mine, MatrixCellStatus) != Text(theirs, MatrixCellStatus))
            && (d.sgacls <==> |names| != |ids| || exists j :: 0 <= j < |names| && names[j] != SgaclName(st, ids[j]))
  {
    hide NameList, SgaclName;
    var names, ids := NameList(mine, SgaclNames), NameList(theirs, Sgacls);
    if |names| == |ids| && forall j :: 0 <= j < |names| ==> names[j] == SgaclName(st, ids[j]) {
      assert names == SgaclNamesOf(st, ids);
    }
  }

  // The default cell is skipped and compared with the target's own, by its rule and
  // its SGACLs, when that is listed.
  lemma DefaultCellIs(st: Store, items: seq<Object>, i: nat)
    requires i < |Preflight(st, items)| && Text(Preflight(st, items)[i].obj, Kind) == "egressCell"
    requires var cell := Preflight(st, items)[i].obj;
             Text(cell, SourceSgtName) == "ANY" && Text(cell, DestinationSgtName) == "ANY"
    ensures var v := Preflight(st, items)[i];
            && v.action == Skip && v.reason.DefaultCell?
            && (v.reason.differs.Some? <==> exists c :: c in st.cells && Governs(st, c, "ANY", "ANY"))
            && (v.reason.differs.Some? ==>
                  exists c :: c in st.cells && Governs(st, c, "ANY", "ANY")
                    && v.reason.differs.value == CellDrift(st, v.obj, c).(status := false))
  {
    VerdictAt(st, items, i);
    CellIndexed(st, "ANY", "ANY");
    if CellKey("ANY", "ANY") in CellIndex(st, st.cells) { IndexedIs(st, st.cells, CellKey("ANY", "ANY")); }
    hide Preflight, WillExistSgts, WillExistSgacls, CellIndex, CellDrift, SgtName, CellBlocked;
  }

  // A cell that could be written, as far as what it names goes, and holds both a
  // catch-all rule and an SGACL.
  ghost predicate NeedsSetting(st: Store, report: seq<Verdict>, cell: Object) {
    var src, dst := Text(cell, SourceSgtName), Text(cell, DestinationSgtName);
    && !(src == "ANY" && dst == "ANY")
    && src != "" && dst != ""
    && Expected(st.sgts, report, "sgt", src) && Expected(st.sgts, report, "sgt", dst)
    && (forall n :: n in NameList(cell, SgaclNames) ==> Expected(st.sgacls, report, "sgacl", n))
    && Text(cell, DefaultRule) !in ["", "NONE"]
    && NameList(cell, SgaclNames) != []
  }

  lemma TwoRulesIs(st: Store, items: seq<Object>, cell: Object)
    ensures TwoRules(WillExistSgts(st, items), WillExistSgacls(st, items), cell) <==>
            NeedsSetting(st, Preflight(st, items), cell)
  {
    ExpectedGroups(st, items);
    ExpectedSgacls(st, items);
    NoneAbsent(NameList(cell, SgaclNames), WillExistSgacls(st, items));
    hide Preflight, WillExistSgts, WillExistSgacls, Expected, Text, NameList;
  }

  ghost function Needing(st: Store, report: seq<Verdict>): Object -> bool { (c: Object) => NeedsSetting(st, report, c) }

  function Naming(): Object -> string { (c: Object) => Text(c, Name) }

  // Noted are exactly those cells of the bundle, by name and in its order, whether
  // they are then cleared or not.
  lemma {:induction false} NotedExactly(st: Store, items: seq<Object>, cells: seq<Object>) returns (at: seq<nat>)
    ensures Picking.Picked(at, cells, Noted(WillExistSgts(st, items), WillExistSgacls(st, items), cells),
                           Needing(st, Preflight(st, items)), Naming())
  {
    hide NeedsSetting, TwoRules, Preflight, WillExistSgts, WillExistSgacls, Text, Picking.Picked;
    var need := Needing(st, Preflight(st, items));
    if cells == [] {
      Picking.NothingPicked(need, Naming());
      at := [];
    } else {
      var n := |cells| - 1;
      at := NotedExactly(st, items, cells[..n]);
      TwoRulesIs(st, items, cells[n]);
      at := Picking.LastPicked(at, cells, Noted(WillExistSgts(st, items), WillExistSgacls(st, items), cells[..n]),
                               need, Naming());
    }
  }

  // The reasons of a group that is not cleared.
  lemma GroupReasonHolds(st: Store, items: seq<Object>, i: nat)
    requires i < |Preflight(st, items)| && Text(Preflight(st, items)[i].obj, Kind) == "sgt"
    ensures var v := Preflight(st, items)[i];
            && (v.action != Create ==> v.reason.ValueHeld? || v.reason.Exists?)
            && (v.reason.ValueHeld? ==>
                  && ValueTaken(st.sgts, v.obj) && v.reason.holder != Text(v.obj, Name)
                  && exists o :: o in st.sgts && Text(o, Name) == v.reason.holder && TagValue in o
                       && o[TagValue] == v.obj[TagValue])
            && (v.reason.Exists? ==>
                  exists o :: o in st.sgts && Text(o, Name) == Text(v.obj, Name)
                    && v.reason.drift == ExistsDrift(v.obj, o))
  {
    VerdictAt(st, items, i);
    var item := Preflight(st, items)[i].obj;
    IndexKeys(st.sgts);
    if TagOf(item).Some? && TagOf(item).value in Holders(st.sgts) {
      var value := TagOf(item).value;
      HolderIs(st.sgts, value);
      var o :| o in st.sgts && TagOf(o) == Some(value) && Text(o, Name) == Holders(st.sgts)[value];
      assert o[TagValue] == Num(value) && item[TagValue] == Num(value);
    }
    if Text(item, Name) in IndexByName(st.sgts) { NamedIs(st.sgts, Text(item, Name)); }
    hide ExistsDrift;
  }

  // An SGACL that is not cleared is there.
  lemma SgaclReasonHolds(st: Store, items: seq<Object>, i: nat)
    requires i < |Preflight(st, items)| && Text(Preflight(st, items)[i].obj, Kind) == "sgacl"
    ensures var v := Preflight(st, items)[i];
            v.action != Create ==>
              && v.reason.Exists?
              && exists o :: o in st.sgacls && Text(o, Name) == Text(v.obj, Name)
                   && v.reason.drift == ExistsDrift(v.obj, o)
  {
    VerdictAt(st, items, i);
    var item := Preflight(st, items)[i].obj;
    if Text(item, Name) in IndexByName(st.sgacls) { NamedIs(st.sgacls, Text(item, Name)); }
    hide ExistsDrift;
  }

  lemma {:induction false} NamedIs(objs: seq<Object>, name: string)
    requires name in IndexByName(objs)
    ensures IndexByName(objs)[name] in objs && Text(IndexByName(objs)[name], Name) == name
  {
    hide Text;
    var n := |objs| - 1;
    if Text(objs[n], Name) != name { NamedIs(objs[..n], name); }
  }

  function Saying(o: Object, k: Key): Json {
    if k !in o || o[k] in [Null, Bool(false), Str(""), Arr([])] then Null else o[k]
  }

  lemma SayingAt(o: Object, k: Key)
    ensures Drift.Field(WithoutZeroes(o), k) == Saying(o, k)
  {
  }

  lemma FieldIs(o: Object, k: Key)
    ensures Drift.Field(o, k) == if k in o then o[k] else Null
  {
  }

  lemma PortableSays(o: Object, k: Key)
    ensures Saying(Portable(o), k) == if k in {GenerationId, MatrixId} then Null else Saying(StripLocal(o), k)
  {
    hide WithoutLinks;
  }

  // What is compared of an object the target has: a property that says nothing - no,
  // an empty text, an empty list - reads like one that is not there.
  lemma ExistsDriftExactly(mine: Object, theirs: Object, k: Key)
    requires k != Description
    ensures k in ExistsDrift(mine, theirs) <==>
              && k !in {Id, Link, Kind, ConditionPath}
              && Saying(mine, k) != (if k in {GenerationId, MatrixId} then Null else Saying(StripLocal(theirs), k))
  {
    hide WithoutZeroes, Portable, StripLocal, Saying, Drift.Drifted, Drift.Field;
    Drift.DriftedExactly(WithoutZeroes(mine), WithoutZeroes(Portable(theirs)), k);
    FieldIs(WithoutZeroes(mine), k);
    FieldIs(WithoutZeroes(Portable(theirs)), k);
    SayingAt(mine, k);
    SayingAt(Portable(theirs), k);
    PortableSays(theirs, k);
  }

  // And the descriptions are compared without their markers.
  lemma DescriptionDriftExactly(mine: Object, theirs: Object)
    ensures Description in ExistsDrift(mine, theirs) <==>
              Marker.Strip(Text(mine, Description)) != Marker.Strip(Text(theirs, Description))
  {
    hide Marker.Strip;
    Drift.DriftedExactly(WithoutZeroes(mine), WithoutZeroes(Portable(theirs)), Description);
    ZeroesKeepText(mine, Description);
    ZeroesKeepText(Portable(theirs), Description);
    StripKeepsText(theirs - {GenerationId, MatrixId}, Description);
  }

  lemma ZeroesKeepText(o: Object, k: Key)
    ensures Text(WithoutZeroes(o), k) == Text(o, k)
  {
  }
}
