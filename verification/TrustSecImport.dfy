// The TrustSec passes as the program performs them: a deployment that stores
// what it accepts, a resolver that remembers, the pre-flight and apply loops,
// and the export of the cells. Each is proved to do what TrustSec specifies.
module TrustSecImport {
  import opened Objects
  import opened Report
  import opened TrustSecStore
  import opened TrustSec
  import opened TrustSecGrowth
  import opened Sorting
  import Segments

  // A deployment: its collections, and the answers it will give to creates.
  class Deployment {
    var store: Store
    var asked: nat
    const answers: nat -> Answer
    const readable: bool

    constructor (st: Store, answers: nat -> Answer, readable: bool)
      ensures store == st && asked == 0 && this.answers == answers && this.readable == readable
    {
      store, asked := st, 0;
      this.answers, this.readable := answers, readable;
    }

    method Create(where: Collection, body: Object) returns (reply: Reply)
      modifies this
      ensures reply == ReplyTo(old(store), answers(old(asked)))
      ensures store == After(old(store), where, body, answers(old(asked)))
      ensures asked == old(asked) + 1
    {
      var a := answers(asked);
      reply := ReplyTo(store, a);
      store := After(store, where, body, a);
      asked := asked + 1;
    }
  }

  // A lookup from id to name that remembers every answer, a failed one too: the
  // failed id is kept under itself.
  class NameResolver {
    const listed: seq<Object>
    const hidden: seq<Object>
    var byId: map<string, string>

    ghost predicate Valid()
      reads this
    {
      && (forall id :: id in NameById(listed) ==> id in byId)
      && (forall id :: id in byId ==> byId[id] == Resolve(listed, hidden, id))
    }

    constructor (listed: seq<Object>, hidden: seq<Object>)
      ensures Valid() && byId == NameById(listed) && this.listed == listed && this.hidden == hidden
    {
      this.listed, this.hidden := listed, hidden;
      var m: map<string, string> := map[];
      for i := 0 to |listed|
        invariant m == NameById(listed[..i])
      {
        assert listed[..i + 1][..i] == listed[..i];
        m := m[Text(listed[i], Id) := Text(listed[i], Name)];
      }
      assert listed[..|listed|] == listed;
      byId := m;
    }

    // The name is the same on every call. Whether the lookup succeeded is not: a
    // second lookup of an id that failed once reports success.
    method Lookup(id: string) returns (name: string, ok: bool)
      requires Valid()
      modifies this
      ensures Valid()
      ensures name == Resolve(listed, hidden, id)
      ensures ok <==> id in old(byId) || Resolves(listed, hidden, id)
      ensures id in byId && forall other :: other != id ==> (other in byId <==> other in old(byId))
    {
      if id in byId {
        return byId[id], true;
      }
      var found := NameById(hidden);
      if id !in found || found[id] == "" {
        byId := byId[id := id];
        return id, false;
      }
      byId := byId[id := found[id]];
      return byId[id], true;
    }
  }

  // An id no read resolves: the first lookup says so, the second does not.
  method LookUpTwice() returns (name: string, first: bool, again: string, second: bool)
    ensures name == again == "gone" && !first && second
  {
    var r := new NameResolver([], []);
    name, first := r.Lookup("gone");
    again, second := r.Lookup("gone");
  }

  method LookupAll(r: NameResolver, ids: seq<string>) returns (names: seq<string>)
    requires r.Valid()
    modifies r
    ensures r.Valid()
    ensures names == seq(|ids|, i requires 0 <= i < |ids| => Resolve(r.listed, r.hidden, ids[i]))
  {
    names := [];
    for i := 0 to |ids|
      invariant r.Valid()
      invariant names == seq(i, j requires 0 <= j < i => Resolve(r.listed, r.hidden, ids[j]))
    {
      var name, ok := r.Lookup(ids[i]);
      names := names + [name];
    }
  }

  method ComputeCellDrift(ghost st: Store, mine: Object, theirs: Object, acls: NameResolver) returns (diff: CellDiff)
    requires acls.Valid() && acls.listed == st.sgacls && acls.hidden == st.hiddenSgacls
    modifies acls
    ensures acls.Valid() && diff == CellDrift(st, mine, theirs)
  {
    var status := Text(mine, MatrixCellStatus);
    var theirNames := LookupAll(acls, NameList(theirs, Sgacls));
    assert theirNames == SgaclNamesOf(st, NameList(theirs, Sgacls));
    diff := CellDiff(RuleOf(mine) != RuleOf(theirs),
                     status != "" && status != Text(theirs, MatrixCellStatus),
                     NameList(mine, SgaclNames) != theirNames);
  }

  // --- pre-flight ---------------------------------------------------------------

  method IndexNames(objs: seq<Object>) returns (m: map<string, Object>)
    ensures m == IndexByName(objs)
  {
    m := map[];
    for i := 0 to |objs|
      invariant m == IndexByName(objs[..i])
    {
      assert objs[..i + 1][..i] == objs[..i];
      m := m[Text(objs[i], Name) := objs[i]];
    }
    assert objs[..|objs|] == objs;
  }

  method IndexHolders(objs: seq<Object>) returns (m: map<real, string>)
    ensures m == Holders(objs)
  {
    m := map[];
    for i := 0 to |objs|
      invariant m == Holders(objs[..i])
    {
      assert objs[..i + 1][..i] == objs[..i];
      if TagOf(objs[i]).Some? {
        m := m[TagOf(objs[i]).value := Text(objs[i], Name)];
      }
    }
    assert objs[..|objs|] == objs;
  }

  method IndexCells(st: Store, groups: NameResolver) returns (m: map<string, Object>)
    requires groups.Valid() && groups.listed == st.sgts && groups.hidden == st.hiddenSgts
    modifies groups
    ensures groups.Valid() && m == CellIndex(st, st.cells)
  {
    m := map[];
    for i := 0 to |st.cells|
      invariant groups.Valid() && m == CellIndex(st, st.cells[..i])
    {
      assert st.cells[..i + 1][..i] == st.cells[..i];
      var src, ok := groups.Lookup(Text(st.cells[i], SourceSgtId));
      var dst, ok' := groups.Lookup(Text(st.cells[i], DestinationSgtId));
      m := m[CellKey(src, dst) := st.cells[i]];
    }
    assert st.cells[..|st.cells|] == st.cells;
  }

  // Kind order, not bundle order: a group is decided before the cell naming it.
  method PreflightTrustSec(d: Deployment, items: seq<Object>, r: PreflightReport<Reason>) returns (notes: seq<string>)
    requires r.Valid()
    modifies r
    ensures r.Valid() && r.items == old(r.items) + Preflight(d.store, items)
    ensures notes == Noted(WillExistSgts(d.store, items), WillExistSgacls(d.store, items), OfKind(KIND_CELL, items))
  {
    hide SgtVerdicts, SgaclVerdicts, CellVerdicts, IndexByName, Holders, CellIndex, WillExistSgts, WillExistSgacls,
         Noted, OfKind, NameById, Resolve;
    var st := d.store;
    var targetSgts := IndexNames(st.sgts);
    var holder := IndexHolders(st.sgts);
    var targetSgacls := IndexNames(st.sgacls);
    var groups := new NameResolver(st.sgts, st.hiddenSgts);
    var acls := new NameResolver(st.sgacls, st.hiddenSgacls);
    var targetCells := IndexCells(st, groups);
    var willSgts := DecideSgts(st, items, targetSgts, holder, r);
    var willSgacls := DecideSgacls(st, items, targetSgacls, r);
    notes := DecideCells(st, items, willSgts, willSgacls, targetCells, acls, r);
  }

  lemma OfKindNext(kind: string, items: seq<Object>, i: nat)
    requires i < |items|
    ensures OfKind(kind, items[..i + 1])
         == OfKind(kind, items[..i]) + if KindOf(items[i]) == kind then [items[i]] else []
  {
    assert items[..i + 1][..i] == items[..i];
  }

  lemma ToCreateNext(vs: seq<Verdict>, v: Verdict)
    ensures ToCreate(vs + [v]) == ToCreate(vs) + if v.action == Create then {v.name} else {}
  {
    assert forall x :: x in vs + [v] <==> x in vs || x == v;
  }

  lemma NothingAtStart(kind: string, items: seq<Object>)
    ensures OfKind(kind, items[..0]) == []
  {
  }

  lemma WillExistAtStart(st: Store)
    ensures OfKind(KIND_SGT, []) == OfKind(KIND_SGACL, []) == []
    ensures SgtVerdicts(st, []) == SgaclVerdicts(st, []) == []
    ensures WillExistSgts(st, []) == NamesIn(st.sgts) && WillExistSgacls(st, []) == NamesIn(st.sgacls)
  {
  }

  // One more group of the bundle: the verdicts and the names counted on.
  lemma NextSgt(st: Store, items: seq<Object>, i: nat)
    requires i < |items|
    ensures var was, now := OfKind(KIND_SGT, items[..i]), OfKind(KIND_SGT, items[..i + 1]);
            var it := SgtVerdict(st, items[i]);
            if KindOf(items[i]) == KIND_SGT then
              && SgtVerdicts(st, now) == SgtVerdicts(st, was) + [it]
              && WillExistSgts(st, items[..i + 1])
                 == WillExistSgts(st, items[..i]) + if it.action == Create then {it.name} else {}
            else now == was && WillExistSgts(st, items[..i + 1]) == WillExistSgts(st, items[..i])
  {
    hide SgtVerdict;
    OfKindNext(KIND_SGT, items, i);
    var was := OfKind(KIND_SGT, items[..i]);
    if KindOf(items[i]) == KIND_SGT {
      assert SgtVerdicts(st, was + [items[i]]) == SgtVerdicts(st, was) + [SgtVerdict(st, items[i])];
      ToCreateNext(SgtVerdicts(st, was), SgtVerdict(st, items[i]));
    } else {
      assert OfKind(KIND_SGT, items[..i + 1]) == was;
    }
  }

  lemma NextSgacl(st: Store, items: seq<Object>, i: nat)
    requires i < |items|
    ensures var was, now := OfKind(KIND_SGACL, items[..i]), OfKind(KIND_SGACL, items[..i + 1]);
            var it := SgaclVerdict(st, items[i]);
            if KindOf(items[i]) == KIND_SGACL then
              && SgaclVerdicts(st, now) == SgaclVerdicts(st, was) + [it]
              && WillExistSgacls(st, items[..i + 1])
                 == WillExistSgacls(st, items[..i]) + if it.action == Create then {it.name} else {}
            else now == was && WillExistSgacls(st, items[..i + 1]) == WillExistSgacls(st, items[..i])
  {
    hide SgaclVerdict;
    OfKindNext(KIND_SGACL, items, i);
    var was := OfKind(KIND_SGACL, items[..i]);
    if KindOf(items[i]) == KIND_SGACL {
      assert SgaclVerdicts(st, was + [items[i]]) == SgaclVerdicts(st, was) + [SgaclVerdict(st, items[i])];
      ToCreateNext(SgaclVerdicts(st, was), SgaclVerdict(st, items[i]));
    } else {
      assert OfKind(KIND_SGACL, items[..i + 1]) == was;
    }
  }

  lemma NextCell(st: Store, groups: set<string>, sgacls: set<string>, items: seq<Object>, i: nat)
    requires i < |items|
    ensures var was, now := OfKind(KIND_CELL, items[..i]), OfKind(KIND_CELL, items[..i + 1]);
            CellVerdicts(st, groups, sgacls, now)
            == CellVerdicts(st, groups, sgacls, was)
               + if KindOf(items[i]) == KIND_CELL then [CellVerdict(st, groups, sgacls, items[i])] else []
  {
    hide CellVerdict;
    OfKindNext(KIND_CELL, items, i);
    var was := OfKind(KIND_CELL, items[..i]);
    if KindOf(items[i]) == KIND_CELL {
      assert CellVerdicts(st, groups, sgacls, was + [items[i]])
          == CellVerdicts(st, groups, sgacls, was) + [CellVerdict(st, groups, sgacls, items[i])];
    } else {
      assert OfKind(KIND_CELL, items[..i + 1]) == was;
    }
  }

  lemma NoCells(st: Store, groups: set<string>, sgacls: set<string>)
    ensures CellVerdicts(st, groups, sgacls, []) == [] && Noted(groups, sgacls, []) == []
  {
  }

  lemma NextNote(groups: set<string>, sgacls: set<string>, items: seq<Object>, i: nat)
    requires i < |items|
    ensures var was, now := OfKind(KIND_CELL, items[..i]), OfKind(KIND_CELL, items[..i + 1]);
            Noted(groups, sgacls, now)
            == if KindOf(items[i]) == KIND_CELL && TwoRules(groups, sgacls, items[i]) then Noted(groups, sgacls,
                was) + [Text(items[i], Name)]
               else Noted(groups, sgacls, was)
  {
    hide TwoRules, Text;
    OfKindNext(KIND_CELL, items, i);
    var was := OfKind(KIND_CELL, items[..i]);
    if KindOf(items[i]) == KIND_CELL {
      assert (was + [items[i]])[..|was|] == was;
    } else {
      assert OfKind(KIND_CELL, items[..i + 1]) == was;
    }
  }

  method DecideSgt(st: Store, item: Object, targetSgts: map<string, Object>, holder: map<real, string>)
    returns (it: Verdict)
    requires targetSgts == IndexByName(st.sgts) && holder == Holders(st.sgts)
    ensures it == SgtVerdict(st, item)
  {
    var name := Text(item, Name);
    var tag := TagOf(item);
    if tag.Some? && tag.value in holder && holder[tag.value] != name {
      return Item(name, Skip, ValueHeld(holder[tag.value]), item);
    }
    if name in targetSgts {
      return Item(name, Skip, Exists(ExistsDrift(item, targetSgts[name])), item);
    }
    return Item(name, Create, NoReason, item);
  }

  method DecideSgts(st: Store, items: seq<Object>, targetSgts: map<string, Object>, holder: map<real, string>,
                    r: PreflightReport<Reason>) returns (willExist: set<string>)
    requires r.Valid() && targetSgts == IndexByName(st.sgts) && holder == Holders(st.sgts)
    modifies r
    ensures r.Valid() && r.items == old(r.items) + SgtVerdicts(st, OfKind(KIND_SGT, items))
    ensures willExist == WillExistSgts(st, items)
  {
    hide SgtVerdict, IndexByName, Holders, SgtVerdicts, OfKind;
    WillExistAtStart(st);
    IndexKeys(st.sgts);
    willExist := targetSgts.Keys;
    for i := 0 to |items|
      invariant r.Valid() && r.items == old(r.items) + SgtVerdicts(st, OfKind(KIND_SGT, items[..i]))
      invariant willExist == WillExistSgts(st, items[..i])
    {
      NextSgt(st, items, i);
      if KindOf(items[i]) == KIND_SGT {
        var it := DecideSgt(st, items[i], targetSgts, holder);
        if it.action == Create { willExist := willExist + {it.name}; }
        r.Add(it);
      }
    }
    assert items[..|items|] == items;
  }

  method DecideSgacl(st: Store, item: Object, targetSgacls: map<string, Object>) returns (it: Verdict)
    requires targetSgacls == IndexByName(st.sgacls)
    ensures it == SgaclVerdict(st, item)
  {
    var name := Text(item, Name);
    if name in targetSgacls {
      return Item(name, Skip, Exists(ExistsDrift(item, targetSgacls[name])), item);
    }
    return Item(name, Create, NoReason, item);
  }

  method DecideSgacls(st: Store, items: seq<Object>, targetSgacls: map<string, Object>, r: PreflightReport<Reason>)
    returns (willExist: set<string>)
    requires r.Valid() && targetSgacls == IndexByName(st.sgacls)
    modifies r
    ensures r.Valid() && r.items == old(r.items) + SgaclVerdicts(st, OfKind(KIND_SGACL, items))
    ensures willExist == WillExistSgacls(st, items)
  {
    hide SgaclVerdict, IndexByName, SgaclVerdicts, OfKind;
    WillExistAtStart(st);
    IndexKeys(st.sgacls);
    willExist := targetSgacls.Keys;
    for i := 0 to |items|
      invariant r.Valid() && r.items == old(r.items) + SgaclVerdicts(st, OfKind(KIND_SGACL, items[..i]))
      invariant willExist == WillExistSgacls(st, items[..i])
    {
      NextSgacl(st, items, i);
      if KindOf(items[i]) == KIND_SGACL {
        var it := DecideSgacl(st, items[i], targetSgacls);
        if it.action == Create { willExist := willExist + {it.name}; }
        r.Add(it);
      }
    }
    assert items[..|items|] == items;
  }

  method DecideCells(st: Store, items: seq<Object>, groups: set<string>, sgacls: set<string>,
                     targetCells: map<string, Object>, acls: NameResolver, r: PreflightReport<Reason>)
    returns (notes: seq<string>)
    requires r.Valid() && acls.Valid() && acls.listed == st.sgacls && acls.hidden == st.hiddenSgacls
    requires targetCells == CellIndex(st, st.cells)
    modifies r, acls
    ensures r.Valid() && r.items == old(r.items) + CellVerdicts(st, groups, sgacls, OfKind(KIND_CELL, items))
    ensures notes == Noted(groups, sgacls, OfKind(KIND_CELL, items))
  {
    hide CellVerdict, CellVerdicts, CellIndex, OfKind, Noted, TwoRules, Text;
    notes := [];
    NothingAtStart(KIND_CELL, items);
    NoCells(st, groups, sgacls);
    for i := 0 to |items|
      invariant r.Valid() && acls.Valid()
      invariant r.items == old(r.items) + CellVerdicts(st, groups, sgacls, OfKind(KIND_CELL, items[..i]))
      invariant notes == Noted(groups, sgacls, OfKind(KIND_CELL, items[..i]))
    {
      NextCell(st, groups, sgacls, items, i);
      NextNote(groups, sgacls, items, i);
      if KindOf(items[i]) == KIND_CELL {
        var it, noted := DecideCell(st, items[i], groups, sgacls, targetCells, acls);
        r.Add(it);
        if noted { notes := notes + [Text(items[i], Name)]; }
      }
    }
    assert items[..|items|] == items;
  }

  method DecideCell(st: Store, item: Object, groups: set<string>, sgacls: set<string>,
                    targetCells: map<string, Object>, acls: NameResolver) returns (it: Verdict, noted: bool)
    requires acls.Valid() && acls.listed == st.sgacls && acls.hidden == st.hiddenSgacls
    requires targetCells == CellIndex(st, st.cells)
    modifies acls
    ensures acls.Valid() && it == CellVerdict(st, groups, sgacls, item)
    ensures noted == TwoRules(groups, sgacls, item)
  {
    hide CellIndex;
    var name, src, dst := Text(item, Name), Text(item, SourceSgtName), Text(item, DestinationSgtName);
    if src == ANY && dst == ANY {
      var differs := None;
      if CellKey(ANY, ANY) in targetCells {
        var diff := ComputeCellDrift(st, item, targetCells[CellKey(ANY, ANY)], acls);
        differs := Some(diff.(status := false));
      }
      return Item(name, Skip, DefaultCell(differs), item), false;
    }
    var reason := CellBlocked(item, groups, sgacls);
    if reason != NoReason {
      return Item(name, Skip, reason, item), false;
    }
    noted := RuleOf(item) != "NONE" && NameList(item, SgaclNames) != [];
    if CellKey(src, dst) in targetCells {
      var diff := ComputeCellDrift(st, item, targetCells[CellKey(src, dst)], acls);
      return Item(name, Skip, PairTaken(diff), item), noted;
    }
    return Item(name, Create, NoReason, item), noted;
  }

  // --- apply --------------------------------------------------------------------

  // The ids of the SGACLs a cell names, in order, or the first name without one.
  method ResolveSgacls(names: seq<string>, ids: map<string, string>)
    returns (list: seq<string>, missing: Option<string>)
    ensures missing == FirstAbsent(names, ids.Keys)
    ensures missing.None? ==> (forall n :: n in names ==> n in ids) && list == IdsFor(names, ids)
  {
    list := [];
    for i := 0 to |names|
      invariant |list| == i && forall j :: 0 <= j < i ==> names[j] in ids && list[j] == ids[names[j]]
      invariant FirstAbsent(names, ids.Keys) == FirstAbsent(names[i..], ids.Keys)
    {
      if names[i] !in ids { return list, Some(names[i]); }
      list := list + [ids[names[i]]];
      assert names[i..][1..] == names[i + 1..];
    }
    missing := None;
  }

  method ResolveCellRefs(cell0: Object, ids: Ids) returns (cell: Object, missing: Option<string>)
    ensures missing == MissingRef(cell0, ids)
    ensures missing.None? ==> cell == Resolved(cell0, ids)
  {
    var src, dst := Text(cell0, SourceSgtName), Text(cell0, DestinationSgtName);
    cell := cell0 - {SourceSgtName, DestinationSgtName};
    if src !in ids.sgts { return cell, Some(src); }
    if dst !in ids.sgts { return cell, Some(dst); }
    cell := cell[SourceSgtId := Str(ids.sgts[src])][DestinationSgtId := Str(ids.sgts[dst])];
    var names := NameList(cell, SgaclNames);
    assert names == NameList(cell0, SgaclNames);
    cell := cell - {SgaclNames};
    var list;
    list, missing := ResolveSgacls(names, ids.sgacls);
    if missing.None? && list != [] {
      cell := cell[Sgacls := Arr(AsList(list))];
    }
  }

  method Account(res: ImportResult, reply: Reply, ghost base: Tally, ghost t: Tally)
    requires res.View() == Plus(base, t)
    modifies res
    ensures res.View() == Plus(base, Tallied(t, reply))
  {
    match reply {
      case Landed => res.created := res.created + 1;
      case AlreadyThere => res.skipped := res.skipped + 1;
      case Refused => res.failed := res.failed + 1;
    }
  }

  method ReadIds(d: Deployment, ids0: Option<Ids>) returns (ids: Option<Ids>)
    ensures ids == Some(if ids0.Some? then ids0.value else IdsOf(d.store))
  {
    if ids0.Some? { return ids0; }
    var sgts := StubsByName(d.store.sgts);
    var acls := StubsByName(d.store.sgacls);
    ids := Some(Ids(sgts, acls));
  }

  // One item of the report; `err` when the target's ids cannot be read.
  method ApplyItem(d: Deployment, it: Verdict, ids0: Option<Ids>, res: ImportResult, ghost s: Run, ghost base: Tally)
    returns (ids: Option<Ids>, err: bool)
    requires s.store == d.store && s.asked == d.asked && s.ids == ids0 && !s.halted
    requires res.View() == Plus(base, s.tally)
    modifies d, res
    ensures var t := Step(s, d.answers, d.readable, it);
            && d.store == t.store && d.asked == t.asked && ids == t.ids && err == t.halted
            && res.View() == Plus(base, t.tally)
  {
    ids, err := ids0, false;
    if it.action == Skip {
      res.skipped := res.skipped + 1;
      return;
    }
    if it.action != Create {
      res.blocked := res.blocked + 1;
      return;
    }
    var kind := KindOf(it.obj);
    var obj := it.obj - {Kind};
    var where := Cells;
    if kind == KIND_SGT {
      where := Sgts;
    } else if kind == KIND_SGACL {
      where := Sgacls_;
    } else if kind == KIND_CELL {
      if ids.None? && !d.readable {
        err := true;
        return;
      }
      ids := ReadIds(d, ids);
      var missing;
      obj, missing := ResolveCellRefs(obj, ids.value);
      if missing.Some? {
        res.failed := res.failed + 1;
        return;
      }
    } else {
      res.failed := res.failed + 1;
      return;
    }
    var reply := d.Create(where, Compact(obj));
    Account(res, reply, base, s.tally);
  }

  // Creates what pre-flight cleared, in report order. `err` is the early return
  // when the target's ids cannot be read.
  method ApplyTrustSec(d: Deployment, r: PreflightReport<Reason>, res: ImportResult) returns (err: bool)
    modifies d, res
    ensures var f := Apply(Start(old(d.store), old(d.asked)), d.answers, d.readable, r.items);
            && d.store == f.store && d.asked == f.asked && err == f.halted
            && res.View() == Plus(old(res.View()), f.tally)
  {
    hide Step;
    ghost var base := res.View();
    ghost var start := Start(d.store, d.asked);
    ghost var s := start;
    var ids: Option<Ids> := None;
    var items := r.items;
    for i := 0 to |items|
      invariant r.items == items
      invariant s == Apply(start, d.answers, d.readable, items[..i])
      invariant s.store == d.store && s.asked == d.asked && s.ids == ids && !s.halted
      invariant res.View() == Plus(base, s.tally)
    {
      assert items[..i + 1][..i] == items[..i];
      ids, err := ApplyItem(d, items[i], ids, res, s, base);
      s := Step(s, d.answers, d.readable, items[i]);
      if err {
        HaltedStays(s, d.answers, d.readable, start, items, i);
        return;
      }
    }
    assert items[..|items|] == items;
    err := false;
  }

  lemma HaltedStep(s: Run, answers: nat -> Answer, readable: bool, it: Verdict)
    requires s.halted
    ensures Step(s, answers, readable, it) == s.(log := s.log + [NotReached])
  {
  }

  // Once apply has returned, nothing more is done.
  lemma {:induction false} HaltedStays(s: Run, answers: nat -> Answer, readable: bool, start: Run,
                                       report: seq<Verdict>, i: nat)
    requires i < |report| && s.halted && s == Apply(start, answers, readable, report[..i + 1])
    ensures var f := Apply(start, answers, readable, report);
            f.halted && f.store == s.store && f.asked == s.asked && f.tally == s.tally
    decreases |report|
  {
    hide Step;
    var n := |report| - 1;
    if i == n {
      assert report[..i + 1] == report;
    } else {
      assert report[..n][..i + 1] == report[..i + 1];
      HaltedStays(s, answers, readable, start, report[..n], i);
      HaltedStep(Apply(start, answers, readable, report[..n]), answers, readable, report[n]);
    }
  }

  // --- export -------------------------------------------------------------------

  method NameRef(cell0: Object, from: Key, to: Key, groups: NameResolver) returns (cell: Object)
    requires groups.Valid()
    modifies groups
    ensures groups.Valid()
    ensures cell == NamedRef(cell0, from, to, Resolve(groups.listed, groups.hidden, Text(cell0, from)))
  {
    hide Resolve;
    cell := cell0;
    var id := Text(cell, from);
    if id != "" {
      var name, ok := groups.Lookup(id);
      cell := NamedRef(cell, from, to, name);
    }
  }

  method NameSgacls(ghost st: Store, cell0: Object, acls: NameResolver) returns (cell: Object)
    requires acls.Valid() && acls.listed == st.sgacls && acls.hidden == st.hiddenSgacls
    modifies acls
    ensures acls.Valid() && cell == NamedSgacls(st, cell0)
  {
    cell := cell0;
    if Sgacls in cell && cell[Sgacls].Arr? {
      var ids := NameList(cell, Sgacls);
      var names := LookupAll(acls, ids);
      assert names == SgaclNamesOf(st, ids);
      cell := cell - {Sgacls};
      if names != [] {
        cell := cell[SgaclNames := Arr(AsList(names))];
      }
    }
  }

  // A cell with its ids replaced by names.
  method ExportOneCell(st: Store, cell0: Object, groups: NameResolver, acls: NameResolver) returns (cell: Object)
    requires groups.Valid() && groups.listed == st.sgts && groups.hidden == st.hiddenSgts
    requires acls.Valid() && acls.listed == st.sgacls && acls.hidden == st.hiddenSgacls && acls != groups
    modifies groups, acls
    ensures groups.Valid() && acls.Valid() && cell == ExportCell(st, cell0)
  {
    hide NamedRef, NamedSgacls;
    cell := cell0[Kind := Str(KIND_CELL)];
    cell := NameRef(cell, SourceSgtId, SourceSgtName, groups);
    cell := NameRef(cell, DestinationSgtId, DestinationSgtName, groups);
    cell := NameSgacls(st, cell, acls);
    cell := Portable(cell);
  }

  method ExportOne(o: Object, kind: string) returns (out: Object)
    ensures out == ExportObject(o, kind)
  {
    out := Portable(o[Kind := Str(kind)]);
  }

  // Everything a deployment lists, as a bundle carries it.
  ghost function Exported(st: Store): seq<Object> {
    seq(|st.sgts|, i requires 0 <= i < |st.sgts| => ExportObject(st.sgts[i], KIND_SGT))
    + seq(|st.sgacls|, i requires 0 <= i < |st.sgacls| => ExportObject(st.sgacls[i], KIND_SGACL))
    + seq(|st.cells|, i requires 0 <= i < |st.cells| => ExportCell(st, st.cells[i]))
  }

  // Every group, SGACL and cell that is listed is in it, once.
  lemma ExportedIs(st: Store)
    ensures |Exported(st)| == |st.sgts| + |st.sgacls| + |st.cells|
    ensures forall o :: o in st.sgts ==> ExportObject(o, "sgt") in Exported(st)
    ensures forall o :: o in st.sgacls ==> ExportObject(o, "sgacl") in Exported(st)
    ensures forall o :: o in st.cells ==> ExportCell(st, o) in Exported(st)
  {
    hide ExportObject, ExportCell;
    var out, n, m := Exported(st), |st.sgts|, |st.sgacls|;
    forall o | o in st.sgts
      ensures ExportObject(o, "sgt") in out
    {
      var i :| 0 <= i < n && st.sgts[i] == o;
      assert out[i] == ExportObject(o, KIND_SGT);
    }
    forall o | o in st.sgacls
      ensures ExportObject(o, "sgacl") in out
    {
      var i :| 0 <= i < m && st.sgacls[i] == o;
      assert out[n + i] == ExportObject(o, KIND_SGACL);
    }
    forall o | o in st.cells
      ensures ExportCell(st, o) in out
    {
      var i :| 0 <= i < |st.cells| && st.cells[i] == o;
      assert out[n + m + i] == ExportCell(st, o);
    }
  }

  function KindRank(kind: string): nat {
    if kind == "sgt" then 0 else if kind == "sgacl" then 1 else if kind == "egressCell" then 2 else 3
  }

  // The order of an export: groups before SGACLs before cells; of one kind, by name
  // whatever its case.
  lemma ExportOrder(out: seq<Object>, i: nat, j: nat)
    requires InOrder(out, SortKey) && i < j < |out|
    ensures KindRank(Text(out[i], Kind)) <= KindRank(Text(out[j], Kind))
    ensures KindRank(Text(out[i], Kind)) == KindRank(Text(out[j], Kind)) ==>
              AtMost(Segments.Lower(Text(out[i], Name)), Segments.Lower(Text(out[j], Name)))
  {
    hide Text, Segments.Lower;
    var a, b := SortKey(out[i]), SortKey(out[j]);
    assert AtMost(a, b);
    assert a[1..] == Segments.Lower(Text(out[i], Name)) && b[1..] == Segments.Lower(Text(out[j], Name));
  }

  // Groups before SGACLs before cells, each by name whatever its case.
  function SortKey(o: Object): string {
    [if KindOf(o) == KIND_SGT then '0'
     else if KindOf(o) == KIND_SGACL then '1'
     else if KindOf(o) == KIND_CELL then '2'
     else '3']
    + Segments.Lower(Text(o, Name))
  }

  method ExportTrustSec(d: Deployment) returns (out: seq<Object>)
    ensures multiset(out) == multiset(Exported(d.store)) && InOrder(out, SortKey)
  {
    hide ExportCell, ExportObject, SortKey, Sorted, InOrder;
    var st := d.store;
    out := [];
    for i := 0 to |st.sgts|
      invariant out == seq(i, j requires 0 <= j < i => ExportObject(st.sgts[j], KIND_SGT))
    {
      var sgt := ExportOne(st.sgts[i], KIND_SGT);
      out := out + [sgt];
    }
    var sgts := out;
    var more := [];
    for i := 0 to |st.sgacls|
      invariant more == seq(i, j requires 0 <= j < i => ExportObject(st.sgacls[j], KIND_SGACL))
    {
      var sgacl := ExportOne(st.sgacls[i], KIND_SGACL);
      more := more + [sgacl];
    }
    var groups := new NameResolver(st.sgts, st.hiddenSgts);
    var acls := new NameResolver(st.sgacls, st.hiddenSgacls);
    var cells := [];
    for i := 0 to |st.cells|
      invariant groups.Valid() && acls.Valid()
      invariant cells == seq(i, j requires 0 <= j < i => ExportCell(st, st.cells[j]))
    {
      var cell := ExportOneCell(st, st.cells[i], groups, acls);
      cells := cells + [cell];
    }
    out := sgts + more + cells;
    assert out == Exported(st);
    SortedIs(out, SortKey);
    out := Sorted(out, SortKey);
  }
}
