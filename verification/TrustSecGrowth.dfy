// What a run of creates keeps of the target's TrustSec collections: they only
// grow, under ids never used before, so no reference on the target changes what
// it means.
module TrustSecGrowth {
  import opened Objects
  import opened Report
  import opened TrustSecStore
  import opened TrustSec

  ghost predicate NewIds(a: Store, more: seq<Object>) {
    forall o :: o in more ==> Unused(a, Text(o, Id))
  }

  // b is a after any number of accepted creates.
  ghost predicate Grown(a: Store, b: Store) {
    && a.sgts <= b.sgts && a.sgacls <= b.sgacls && a.cells <= b.cells
    && b.hiddenSgts == a.hiddenSgts && b.hiddenSgacls == a.hiddenSgacls
    && NewIds(a, b.sgts[|a.sgts|..])
    && NewIds(a, b.sgacls[|a.sgacls|..])
  }

  lemma GrownRefl(a: Store)
    ensures Grown(a, a)
  {
  }

  lemma UnusedBefore(a: Store, b: Store, id: string)
    requires Grown(a, b) && Unused(b, id)
    ensures Unused(a, id)
  {
    assert forall o :: o in a.sgts ==> o in b.sgts;
    assert forall o :: o in a.sgacls ==> o in b.sgacls;
    assert forall o :: o in a.cells ==> o in b.cells;
  }

  lemma NewIdsTrans(a: Store, b: Store, xs: seq<Object>, ys: seq<Object>, zs: seq<Object>)
    requires Grown(a, b) && xs <= ys <= zs
    requires NewIds(a, ys[|xs|..]) && NewIds(b, zs[|ys|..])
    ensures NewIds(a, zs[|xs|..])
  {
    forall o | o in zs[|xs|..]
      ensures Unused(a, Text(o, Id))
    {
      var i :| |xs| <= i < |zs| && zs[i] == o;
      if i < |ys| {
        assert ys[|xs|..][i - |xs|] == o;
      } else {
        assert zs[|ys|..][i - |ys|] == o;
        UnusedBefore(a, b, Text(o, Id));
      }
    }
  }

  lemma GrownTrans(a: Store, b: Store, c: Store)
    requires Grown(a, b) && Grown(b, c)
    ensures Grown(a, c)
  {
    NewIdsTrans(a, b, a.sgts, b.sgts, c.sgts);
    NewIdsTrans(a, b, a.sgacls, b.sgacls, c.sgacls);
  }

  lemma DistinctExtended(listed: seq<Object>, hidden: seq<Object>, o: Object)
    requires DistinctIds(listed + hidden)
    requires Text(o, Id) != "" && !HoldsId(listed, Text(o, Id)) && !HoldsId(hidden, Text(o, Id))
    ensures DistinctIds(listed + [o] + hidden)
  {
    var n := |listed|;
    var all := listed + hidden;
    var more := listed + [o] + hidden;
    assert forall i :: 0 <= i < n ==> more[i] == all[i] && more[i] in listed;
    assert more[n] == o;
    forall i | n < i < |more|
      ensures more[i] == all[i - 1] && more[i] in hidden
    {
      assert more[i] == hidden[i - n - 1];
    }
  }

  // One create: the collections grow by the object at most, and stay valid.
  lemma OneCreate(st: Store, where: Collection, body: Object, a: Answer)
    requires Valid(st)
    ensures Valid(After(st, where, body, a)) && Grown(st, After(st, where, body, a))
  {
    if ReplyTo(st, a) == Landed {
      var o := Stored(body, a.id);
      assert Text(o, Id) == a.id;
      match where {
        case Sgts =>
          DistinctExtended(st.sgts, st.hiddenSgts, o);
          assert (st.sgts + [o])[|st.sgts|..] == [o];
        case Sgacls_ =>
          DistinctExtended(st.sgacls, st.hiddenSgacls, o);
          assert (st.sgacls + [o])[|st.sgacls|..] == [o];
        case Cells =>
      }
    } else {
      GrownRefl(st);
    }
  }

  // An id the target already used, or none, resolves as before.
  lemma ResolveGrows(listed: seq<Object>, hidden: seq<Object>, more: seq<Object>, id: string)
    requires !HoldsId(more, id)
    ensures Resolve(listed + more, hidden, id) == Resolve(listed, hidden, id)
  {
    NameByIdGrows(listed, more, id);
  }

  lemma RefsGrow(a: Store, b: Store, id: string)
    requires Grown(a, b) && !Unused(a, id)
    ensures SgtName(b, id) == SgtName(a, id) && SgaclName(b, id) == SgaclName(a, id)
  {
    assert b.sgts == a.sgts + b.sgts[|a.sgts|..];
    assert b.sgacls == a.sgacls + b.sgacls[|a.sgacls|..];
    ResolveGrows(a.sgts, a.hiddenSgts, b.sgts[|a.sgts|..], id);
    ResolveGrows(a.sgacls, a.hiddenSgacls, b.sgacls[|a.sgacls|..], id);
  }

  // So every cell keeps its meaning, and with it the pair it governs.
  lemma MeaningGrows(a: Store, b: Store, cell: Object)
    requires Grown(a, b) && cell in a.cells
    ensures Meaning(b, cell) == Meaning(a, cell)
    ensures CellKeyOf(b, cell) == CellKeyOf(a, cell)
  {
    assert CellMentions(cell, Text(cell, SourceSgtId)) && CellMentions(cell, Text(cell, DestinationSgtId));
    RefsGrow(a, b, Text(cell, SourceSgtId));
    RefsGrow(a, b, Text(cell, DestinationSgtId));
    var ids := NameList(cell, Sgacls);
    forall i | 0 <= i < |ids|
      ensures SgaclNamesOf(b, ids)[i] == SgaclNamesOf(a, ids)[i]
    {
      assert ids[i] in ids && CellMentions(cell, ids[i]);
      RefsGrow(a, b, ids[i]);
    }
  }

  lemma {:induction false} CellIndexKeys(st: Store, cells: seq<Object>, key: string)
    ensures key in CellIndex(st, cells) <==> exists c :: c in cells && CellKeyOf(st, c) == key
  {
    if cells != [] {
      var n := |cells| - 1;
      CellIndexKeys(st, cells[..n], key);
      assert cells == cells[..n] + [cells[n]];
      assert forall c :: c in cells <==> c in cells[..n] || c == cells[n];
    }
  }

  // A pair taken on a target stays taken.
  lemma PairsGrow(a: Store, b: Store, key: string)
    requires Grown(a, b) && key in CellIndex(a, a.cells)
    ensures key in CellIndex(b, b.cells)
  {
    CellIndexKeys(a, a.cells, key);
    CellIndexKeys(b, b.cells, key);
    var c :| c in a.cells && CellKeyOf(a, c) == key;
    MeaningGrows(a, b, c);
    assert c in b.cells;
  }

  lemma NamesGrow(a: seq<Object>, b: seq<Object>)
    requires a <= b
    ensures NamesIn(a) <= NamesIn(b)
  {
    assert forall o :: o in a ==> o in b;
  }

  // --- the references of a cell -----------------------------------------------

  // Every id in the tables belongs to a listed object of that name.
  ghost predicate TablesHold(st: Store, ids: Ids) {
    && (forall n :: n in ids.sgts ==> exists o :: o in st.sgts && Text(o, Name) == n && Text(o, Id) == ids.sgts[n])
    && (forall n :: n in ids.sgacls ==> exists o ::
         o in st.sgacls && Text(o, Name) == n && Text(o, Id) == ids.sgacls[n])
  }

  lemma FreshTables(st: Store)
    ensures TablesHold(st, IdsOf(st))
  {
    var ids := IdsOf(st);
    forall n | n in ids.sgts
      ensures exists o :: o in st.sgts && Text(o, Name) == n && Text(o, Id) == ids.sgts[n]
    {
      IdOfName(st.sgts, n);
    }
    forall n | n in ids.sgacls
      ensures exists o :: o in st.sgacls && Text(o, Name) == n && Text(o, Id) == ids.sgacls[n]
    {
      IdOfName(st.sgacls, n);
    }
  }

  lemma TablesGrow(a: Store, b: Store, ids: Ids)
    requires Grown(a, b) && TablesHold(a, ids)
    ensures TablesHold(b, ids)
  {
    assert forall o :: o in a.sgts ==> o in b.sgts;
    assert forall o :: o in a.sgacls ==> o in b.sgacls;
  }

  lemma TableResolves(st: Store, ids: Ids)
    requires Valid(st) && TablesHold(st, ids)
    ensures forall n :: n in ids.sgts ==>
              ids.sgts[n] != "" && HoldsId(st.sgts, ids.sgts[n]) && SgtName(st, ids.sgts[n]) == n
    ensures forall n :: n in ids.sgacls ==>
              ids.sgacls[n] != "" && HoldsId(st.sgacls, ids.sgacls[n]) && SgaclName(st, ids.sgacls[n]) == n
  {
    forall n | n in ids.sgts
      ensures ids.sgts[n] != "" && HoldsId(st.sgts, ids.sgts[n]) && SgtName(st, ids.sgts[n]) == n
    {
      var o :| o in st.sgts && Text(o, Name) == n && Text(o, Id) == ids.sgts[n];
      ResolveListed(st.sgts, st.hiddenSgts, o);
      assert o in st.sgts + st.hiddenSgts;
    }
    forall n | n in ids.sgacls
      ensures ids.sgacls[n] != "" && HoldsId(st.sgacls, ids.sgacls[n]) && SgaclName(st, ids.sgacls[n]) == n
    {
      var o :| o in st.sgacls && Text(o, Name) == n && Text(o, Id) == ids.sgacls[n];
      ResolveListed(st.sgacls, st.hiddenSgacls, o);
      assert o in st.sgacls + st.hiddenSgacls;
    }
  }

  // Every id of a cell's body is on the target's lists.
  ghost predicate RefsPresent(st: Store, body: Object) {
    && HoldsId(st.sgts, Text(body, SourceSgtId))
    && HoldsId(st.sgts, Text(body, DestinationSgtId))
    && forall id :: id in NameList(body, Sgacls) ==> HoldsId(st.sgacls, id)
  }

  // A bundle's cell that names its SGACLs, or has none at all. One that carries ids
  // of its own and no names keeps those ids.
  predicate NamesSgacls(cell: Object) { NameList(cell, SgaclNames) != [] || NameList(cell, Sgacls) == [] }

  // A cell of the target says what the bundle's does - the same pair, default rule
  // and status, and the same SGACLs in the same order exactly when the bundle's
  // names them.
  ghost predicate Says(st: Store, cell: Object, item: Object) {
    var m, c := Meaning(st, cell), Carried(item);
    && m.src == c.src && m.dst == c.dst && m.rule == c.rule && m.status == c.status
    && (m.sgacls == c.sgacls <==> NamesSgacls(item))
  }

  lemma ResolvedSgacls(st: Store, cell: Object, ids: Ids)
    requires Valid(st) && TablesHold(st, ids) && MissingRef(cell, ids).None?
    ensures NamesSgacls(cell) ==> forall id :: id in NameList(Resolved(cell, ids), Sgacls) ==> HoldsId(st.sgacls, id)
    ensures SgaclNamesOf(st, NameList(Resolved(cell, ids), Sgacls)) == NameList(cell, SgaclNames) <==> NamesSgacls(cell)
  {
    hide TablesHold, Valid, IdByName;
    TableResolves(st, ids);
    var names := NameList(cell, SgaclNames);
    NoneAbsent(names, ids.sgacls.Keys);
    if names != [] {
      var list := IdsFor(names, ids.sgacls);
      assert forall i :: 0 <= i < |list| ==> names[i] in names && list[i] == ids.sgacls[names[i]];
      StringsOfList(list);
      assert NameList(Resolved(cell, ids), Sgacls) == list;
    } else {
      assert NameList(Resolved(cell, ids), Sgacls) == NameList(cell, Sgacls);
      assert |SgaclNamesOf(st, NameList(cell, Sgacls))| == |NameList(cell, Sgacls)|;
    }
  }

  lemma ResolvedTexts(cell: Object, ids: Ids)
    requires MissingRef(cell, ids).None?
    ensures Text(Compact(Resolved(cell, ids)), SourceSgtId) == ids.sgts[Text(cell, SourceSgtName)]
    ensures Text(Compact(Resolved(cell, ids)), DestinationSgtId) == ids.sgts[Text(cell, DestinationSgtName)]
    ensures RuleOf(Compact(Resolved(cell, ids))) == RuleOf(cell)
    ensures Text(Compact(Resolved(cell, ids)), MatrixCellStatus) == Text(cell, MatrixCellStatus)
  {
    var r := Resolved(cell, ids);
    CompactKeepsText(r, SourceSgtId);
    CompactKeepsText(r, DestinationSgtId);
    CompactKeepsText(r, DefaultRule);
    CompactKeepsText(r, MatrixCellStatus);
  }

  // The pair a resolved cell governs is the pair it names in the bundle.
  lemma ResolvedPair(st: Store, cell: Object, ids: Ids)
    requires Valid(st) && TablesHold(st, ids) && MissingRef(cell, ids).None?
    ensures CellKeyOf(st, Compact(Resolved(cell, ids))) ==
              CellKey(Text(cell, SourceSgtName), Text(cell, DestinationSgtName))
  {
    TableResolves(st, ids);
    ResolvedTexts(cell, ids);
  }

  // A cell resolved against the target points at objects the target lists, and
  // says there what the bundle's copy says.
  lemma ResolvedMeaning(st: Store, cell: Object, ids: Ids)
    requires Valid(st) && TablesHold(st, ids) && MissingRef(cell, ids).None?
    ensures NamesSgacls(cell) ==> RefsPresent(st, Compact(Resolved(cell, ids)))
    ensures Says(st, Compact(Resolved(cell, ids)), cell)
  {
    TableResolves(st, ids);
    ResolvedTexts(cell, ids);
    ResolvedSgacls(st, cell, ids);
    CompactKeepsNames(Resolved(cell, ids), Sgacls);
  }
}
