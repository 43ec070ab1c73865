// The whole-run properties of the TrustSec import: over any bundle, any valid
// target and any pattern of answers to its creates.
module TrustSecTheorems {
  import opened Objects
  import opened Report
  import opened TrustSecStore
  import opened TrustSec
  import opened TrustSecGrowth

  // --- one item of the report ---------------------------------------------------

  // The body is the cell, resolved against tables that hold on the target.
  ghost predicate ResolvedBody(st: Store, cell: Object, body: Object) {
    exists ids :: TablesHold(st, ids) && MissingRef(cell, ids).None? && body == Compact(Resolved(cell, ids))
  }

  // What was sent for an item, and where.
  ghost predicate SentFor(it: Verdict, o: Outcome)
    requires o.Sent?
  {
    && it.action == Create
    && (KindOf(it.obj) == KIND_SGT ==> o.where == Sgts && o.body == Compact(it.obj - {Kind}))
    && (KindOf(it.obj) == KIND_SGACL ==> o.where == Sgacls_ && o.body == Compact(it.obj - {Kind}))
    && (KindOf(it.obj) == KIND_CELL ==>
          && o.where == Cells && Valid(o.before)
          && ResolvedBody(o.before, it.obj - {Kind}, o.body))
    && KindOf(it.obj) in [KIND_SGT, KIND_SGACL, KIND_CELL]
  }

  // A state apply can be in: its tables, once read, hold on the target.
  ghost predicate Sound(s: Run) {
    Valid(s.store) && (s.ids.Some? ==> TablesHold(s.store, s.ids.value))
  }

  // The next state and the one outcome logged for the item.
  ghost predicate Advances(s: Run, answers: nat -> Answer, t: Run) {
    && |t.log| == |s.log| + 1 && t.log[..|s.log|] == s.log
    && var o := t.log[|s.log|];
       if o.Sent? then
         && o.before == s.store && o.reply == ReplyTo(s.store, answers(s.asked))
         && t.store == After(s.store, o.where, o.body, answers(s.asked)) && t.asked == s.asked + 1
       else t.store == s.store && t.asked == s.asked
  }

  lemma AttemptCellSends(s: Run, answers: nat -> Answer, readable: bool, cell: Object)
    requires Sound(s)
    ensures var t := AttemptCell(s, answers, readable, cell);
            && Advances(s, answers, t)
            && (t.log[|s.log|].Sent? ==>
                 t.log[|s.log|].where == Cells && ResolvedBody(s.store, cell, t.log[|s.log|].body))
            && (t.ids == s.ids || (s.ids.None? && t.ids == Some(IdsOf(s.store))))
  {
    hide Valid, TablesHold, After, ReplyTo, Resolved, Compact, MissingRef;
    FreshTables(s.store);
    var ids := if s.ids.Some? then s.ids.value else IdsOf(s.store);
    assert MissingRef(cell, ids).None? ==> ResolvedBody(s.store, cell, Compact(Resolved(cell, ids)));
  }

  lemma StepSends(s: Run, answers: nat -> Answer, readable: bool, it: Verdict)
    requires Sound(s)
    ensures var t := Step(s, answers, readable, it);
            && Advances(s, answers, t)
            && (t.log[|s.log|].Sent? ==> SentFor(it, t.log[|s.log|]))
            && (t.ids == s.ids || (s.ids.None? && KindOf(it.obj) == KIND_CELL && t.ids == Some(IdsOf(s.store))))
  {
    hide AttemptCell, TablesHold, After, ReplyTo, Compact, ResolvedBody;
    AttemptCellSends(s, answers, readable, it.obj - {Kind});
  }

  lemma StepGrows(s: Run, answers: nat -> Answer, readable: bool, it: Verdict)
    requires Sound(s)
    ensures var t := Step(s, answers, readable, it);
            && |t.log| == |s.log| + 1 && t.log[..|s.log|] == s.log
            && Sound(t) && Grown(s.store, t.store)
  {
    hide Step, After, ReplyTo, TablesHold;
    StepSends(s, answers, readable, it);
    var t := Step(s, answers, readable, it);
    var o := t.log[|s.log|];
    GrownRefl(s.store);
    if o.Sent? {
      OneCreate(s.store, o.where, o.body, answers(s.asked));
    }
    FreshTables(s.store);
    if t.ids.Some? { TablesGrow(s.store, t.store, t.ids.value); }
  }

  // --- what every run of apply keeps -------------------------------------------

  lemma {:induction false} ApplyGrows(st: Store, asked: nat, answers: nat -> Answer, readable: bool,
                                      report: seq<Verdict>)
    requires Valid(st)
    ensures var f := Apply(Start(st, asked), answers, readable, report);
            |f.log| == |report| && Sound(f) && Grown(st, f.store)
  {
    hide Step;
    if report == [] {
      GrownRefl(st);
    } else {
      var n := |report| - 1;
      ApplyGrows(st, asked, answers, readable, report[..n]);
      StepGrows(Apply(Start(st, asked), answers, readable, report[..n]), answers, readable, report[n]);
      GrownTrans(st, Apply(Start(st, asked), answers, readable, report[..n]).store,
                 Apply(Start(st, asked), answers, readable, report).store);
    }
  }

  // An object of the target stands for the item.
  ghost predicate Present(st: Store, obj: Object) {
    && (KindOf(obj) == KIND_SGT ==> Text(obj, Name) in NamesIn(st.sgts))
    && (KindOf(obj) == KIND_SGACL ==> Text(obj, Name) in NamesIn(st.sgacls))
    && (KindOf(obj) == KIND_CELL ==>
          CellKey(Text(obj, SourceSgtName), Text(obj, DestinationSgtName)) in CellIndex(st, st.cells))
  }

  lemma PresentGrows(a: Store, b: Store, obj: Object)
    requires Grown(a, b) && Present(a, obj)
    ensures Present(b, obj)
  {
    NamesGrow(a.sgts, b.sgts);
    NamesGrow(a.sgacls, b.sgacls);
    if KindOf(obj) == KIND_CELL {
      PairsGrow(a, b, CellKey(Text(obj, SourceSgtName), Text(obj, DestinationSgtName)));
    }
  }

  // Storing a cell changes no reference's meaning.
  lemma CellStored(st: Store, body: Object, a: Answer)
    requires ReplyTo(st, a) == Landed
    ensures var t := After(st, Cells, body, a);
            && Stored(body, a.id) in t.cells
            && CellKeyOf(t, Stored(body, a.id)) == CellKeyOf(st, body)
            && Meaning(t, Stored(body, a.id)) == Meaning(st, body)
  {
    hide Resolve, RuleOf, Unused, Meaning, CellKeyOf;
    var o, t := Stored(body, a.id), After(st, Cells, body, a);
    StoredTexts(body, a.id);
    RuleStored(body, a.id);
    assert o in t.cells;
    hide Text, NameList;
    SameReading(st, t, body, o);
  }

  // A cell is read off its texts and the names of the groups and SGACLs.
  lemma SameReading(a: Store, b: Store, mine: Object, theirs: Object)
    requires a.sgts == b.sgts && a.hiddenSgts == b.hiddenSgts && a.sgacls == b.sgacls
    requires a.hiddenSgacls == b.hiddenSgacls
    requires RuleOf(mine) == RuleOf(theirs)
    requires forall k :: k != Id ==> Text(theirs, k) == Text(mine, k) && NameList(theirs, k) == NameList(mine, k)
    ensures Meaning(b, theirs) == Meaning(a, mine) && CellKeyOf(b, theirs) == CellKeyOf(a, mine)
  {
    hide Text, NameList, RuleOf, Resolve;
    assert SgaclNamesOf(b, NameList(theirs, Sgacls)) == SgaclNamesOf(a, NameList(mine, Sgacls));
  }

  lemma StoredTexts(body: Object, id: string)
    ensures var o := Stored(body, id);
            forall k :: k != Id ==> Text(o, k) == Text(body, k) && NameList(o, k) == NameList(body, k)
  {
  }

  lemma RuleStored(body: Object, id: string)
    ensures RuleOf(Stored(body, id)) == RuleOf(body)
  {
  }

  lemma LandedPair(st: Store, cell: Object, body: Object, a: Answer)
    requires Valid(st) && ResolvedBody(st, cell, body) && ReplyTo(st, a) == Landed
    ensures var t := After(st, Cells, body, a);
            CellKey(Text(cell, SourceSgtName), Text(cell, DestinationSgtName)) in CellIndex(t, t.cells)
  {
    hide After, Valid, TablesHold, MissingRef, Resolved, Compact, CellKey, CellKeyOf, CellIndex, Meaning;
    var ids :| TablesHold(st, ids) && MissingRef(cell, ids).None? && body == Compact(Resolved(cell, ids));
    ResolvedPair(st, cell, ids);
    var t := After(st, Cells, body, a);
    CellStored(st, body, a);
    CellIndexKeys(t, t.cells, CellKeyOf(t, Stored(body, a.id)));
  }

  lemma LandedName(st: Store, where: Collection, obj: Object, a: Answer)
    requires ReplyTo(st, a) == Landed
    ensures where == Sgts ==> Text(obj, Name) in NamesIn(After(st, where, Compact(obj), a).sgts)
    ensures where == Sgacls_ ==> Text(obj, Name) in NamesIn(After(st, where, Compact(obj), a).sgacls)
  {
    var t := After(st, where, Compact(obj), a);
    var stored := Stored(Compact(obj), a.id);
    CompactKeepsText(obj, Name);
    assert Text(stored, Name) == Text(obj, Name);
    assert where == Sgts ==> stored in t.sgts;
    assert where == Sgacls_ ==> stored in t.sgacls;
  }

  lemma LandingIsPresent(it: Verdict, o: Outcome, a: Answer)
    requires o.Sent? && SentFor(it, o) && o.reply == ReplyTo(o.before, a) == Landed
    ensures Present(After(o.before, o.where, o.body, a), it.obj)
  {
    hide After, ReplyTo, ResolvedBody, CellIndex;
    var obj := it.obj - {Kind};
    if KindOf(it.obj) == KIND_CELL {
      LandedPair(o.before, obj, o.body, a);
    } else {
      LandedName(o.before, o.where, obj, a);
      assert Text(obj, Name) == Text(it.obj, Name);
    }
  }

  // Whatever landed is on the target when the run is over.
  lemma {:induction false} LandedStays(st: Store, asked: nat, answers: nat -> Answer, readable: bool,
                                       report: seq<Verdict>, i: nat)
    requires Valid(st) && i < |report|
    requires |Apply(Start(st, asked), answers, readable, report).log| == |report|
    requires HasLanded(Apply(Start(st, asked), answers, readable, report).log[i])
    ensures Present(Apply(Start(st, asked), answers, readable, report).store, report[i].obj)
  {
    hide Step, Present, Grown, After, ReplyTo, Valid;
    var n := |report| - 1;
    var s := Apply(Start(st, asked), answers, readable, report[..n]);
    var f := Apply(Start(st, asked), answers, readable, report);
    ApplyGrows(st, asked, answers, readable, report[..n]);
    StepGrows(s, answers, readable, report[n]);
    StepSends(s, answers, readable, report[n]);
    if i < n {
      LandedStays(st, asked, answers, readable, report[..n], i);
      PresentGrows(s.store, f.store, report[i].obj);
    } else {
      LandingIsPresent(report[n], f.log[n], answers(s.asked));
    }
  }

  // --- where the new objects come from ------------------------------------------

  // o is what an item cleared for creation put on the target.
  ghost predicate MadeBy(o: Object, it: Verdict, kind: string) {
    && it.action == Create && KindOf(it.obj) == kind
    && Text(o, Name) == Text(it.obj, Name) && TagOf(o) == TagOf(it.obj)
  }

  ghost predicate MadeByReport(more: seq<Object>, report: seq<Verdict>, kind: string) {
    forall o :: o in more ==> exists i :: 0 <= i < |report| && MadeBy(o, report[i], kind)
  }

  lemma MadeByMore(more: seq<Object>, o: Object, report: seq<Verdict>, kind: string)
    requires report != [] && MadeByReport(more, report[..|report| - 1], kind)
    requires MadeBy(o, report[|report| - 1], kind)
    ensures MadeByReport(more, report, kind) && MadeByReport(more + [o], report, kind)
  {
    var n := |report| - 1;
    forall x | x in more + [o]
      ensures exists i :: 0 <= i < |report| && MadeBy(x, report[i], kind)
    {
      if x in more {
        var i :| 0 <= i < n && MadeBy(x, report[..n][i], kind);
        assert MadeBy(x, report[i], kind);
      }
    }
  }

  lemma MadeByPrefix(more: seq<Object>, report: seq<Verdict>, kind: string)
    requires report != [] && MadeByReport(more, report[..|report| - 1], kind)
    ensures MadeByReport(more, report, kind)
  {
    var n := |report| - 1;
    forall x | x in more
      ensures exists i :: 0 <= i < |report| && MadeBy(x, report[i], kind)
    {
      var i :| 0 <= i < n && MadeBy(x, report[..n][i], kind);
      assert MadeBy(x, report[i], kind);
    }
  }

  lemma StoredFrom(it: Verdict, id: string)
    requires it.action == Create
    ensures MadeBy(Stored(Compact(it.obj - {Kind}), id), it, KindOf(it.obj))
  {
    CompactKeepsText(it.obj - {Kind}, Name);
  }

  lemma {:induction false} Provenance(st: Store, asked: nat, answers: nat -> Answer, readable: bool,
                                      report: seq<Verdict>)
    requires Valid(st)
    ensures var f := Apply(Start(st, asked), answers, readable, report);
            && st.sgts <= f.store.sgts && st.sgacls <= f.store.sgacls
            && MadeByReport(f.store.sgts[|st.sgts|..], report, KIND_SGT)
            && MadeByReport(f.store.sgacls[|st.sgacls|..], report, KIND_SGACL)
  {
    hide MadeBy, Grown, Step;
    ApplyGrows(st, asked, answers, readable, report);
    if report != [] {
      var n := |report| - 1;
      var s := Apply(Start(st, asked), answers, readable, report[..n]);
      var f := Apply(Start(st, asked), answers, readable, report);
      Provenance(st, asked, answers, readable, report[..n]);
      ApplyGrows(st, asked, answers, readable, report[..n]);
      StepSends(s, answers, readable, report[n]);
      MadeByPrefix(s.store.sgts[|st.sgts|..], report, KIND_SGT);
      MadeByPrefix(s.store.sgacls[|st.sgacls|..], report, KIND_SGACL);
      if HasLanded(f.log[|s.log|]) {
        var id := answers(s.asked).id;
        var o := Stored(f.log[|s.log|].body, id);
        StoredFrom(report[n], id);
        if KindOf(report[n].obj) == KIND_SGT {
          assert f.store.sgts[|st.sgts|..] == s.store.sgts[|st.sgts|..] + [o];
          MadeByMore(s.store.sgts[|st.sgts|..], o, report, KIND_SGT);
        } else if KindOf(report[n].obj) == KIND_SGACL {
          assert f.store.sgacls[|st.sgacls|..] == s.store.sgacls[|st.sgacls|..] + [o];
          MadeByMore(s.store.sgacls[|st.sgacls|..], o, report, KIND_SGACL);
        }
      }
    }
  }

  // --- the shape of a report ---------------------------------------------------

  lemma {:induction false} OfKindHas(kind: string, items: seq<Object>)
    ensures forall o :: o in OfKind(kind, items) ==> KindOf(o) == kind && o in items
  {
    if items != [] {
      OfKindHas(kind, items[..|items| - 1]);
    }
  }

  lemma VerdictObj(st: Store, groups: set<string>, sgacls: set<string>)
    ensures forall o :: SgtVerdict(st, o).obj == o
    ensures forall o :: SgaclVerdict(st, o).obj == o
    ensures forall o :: CellVerdict(st, groups, sgacls, o).obj == o
  {
  }

  // The verdict at a place of a report, by kind.
  lemma VerdictAt(st: Store, items: seq<Object>, i: nat)
    requires i < |Preflight(st, items)|
    ensures var gs, as_, cs := OfKind(KIND_SGT, items), OfKind(KIND_SGACL, items), OfKind(KIND_CELL, items);
            && |Preflight(st, items)| == |gs| + |as_| + |cs|
            && var v := Preflight(st, items)[i];
               if i < |gs| then v == SgtVerdict(st, gs[i]) && KindOf(v.obj) == KIND_SGT && v.obj == gs[i]
               else if i < |gs| + |as_| then
                 v == SgaclVerdict(st, as_[i - |gs|]) && KindOf(v.obj) == KIND_SGACL && v.obj == as_[i - |gs|]
               else
                 && var c := cs[i - |gs| - |as_|];
                 && v == CellVerdict(st, WillExistSgts(st, items), WillExistSgacls(st, items), c)
                 && KindOf(v.obj) == KIND_CELL && v.obj == c
  {
    hide SgtVerdict, SgaclVerdict, CellVerdict, OfKind, WillExistSgts, WillExistSgacls;
    VerdictObj(st, WillExistSgts(st, items), WillExistSgacls(st, items));
    OfKindHas(KIND_SGT, items);
    OfKindHas(KIND_SGACL, items);
    OfKindHas(KIND_CELL, items);
  }

  lemma VerdictOfMade(st: Store, items: seq<Object>, i: nat)
    requires i < |Preflight(st, items)|
    ensures var v := Preflight(st, items)[i];
            && (KindOf(v.obj) == KIND_SGT ==>
                 v == SgtVerdict(st, v.obj) && v in SgtVerdicts(st, OfKind(KIND_SGT, items)))
            && (KindOf(v.obj) == KIND_SGACL ==>
                 v == SgaclVerdict(st, v.obj) && v in SgaclVerdicts(st, OfKind(KIND_SGACL, items)))
  {
    VerdictAt(st, items, i);
    var gs, as_ := OfKind(KIND_SGT, items), OfKind(KIND_SGACL, items);
    if i < |gs| {
      assert SgtVerdicts(st, gs)[i] == Preflight(st, items)[i];
    } else if i < |gs| + |as_| {
      assert SgaclVerdicts(st, as_)[i - |gs|] == Preflight(st, items)[i];
    }
  }

  // --- tag values ---------------------------------------------------------------

  lemma {:induction false} HolderListed(objs: seq<Object>, v: real)
    ensures v in Holders(objs) <==> exists o :: o in objs && TagOf(o) == Some(v)
    ensures v in Holders(objs) ==> Holders(objs)[v] in NamesIn(objs)
  {
    if objs != [] {
      var n := |objs| - 1;
      HolderListed(objs[..n], v);
      assert objs == objs[..n] + [objs[n]];
      assert forall o :: o in objs <==> o in objs[..n] || o == objs[n];
    }
  }

  lemma {:induction false} HoldersGrow(objs: seq<Object>, more: seq<Object>, v: real)
    requires forall o :: o in more ==> TagOf(o) != Some(v)
    ensures (v in Holders(objs + more)) == (v in Holders(objs))
    ensures v in Holders(objs) ==> Holders(objs + more)[v] == Holders(objs)[v]
  {
    if more == [] {
      assert objs + more == objs;
    } else {
      var n := |more| - 1;
      assert (objs + more)[..|objs| + n] == objs + more[..n];
      assert more[n] in more;
      HoldersGrow(objs, more[..n], v);
    }
  }

  // A group cleared for creation brings a value nobody on the target holds.
  lemma ClearedValueIsFree(st: Store, item: Object)
    requires SgtVerdict(st, item).action == Create
    ensures Text(item, Name) !in NamesIn(st.sgts)
    ensures forall o :: o in st.sgts && TagOf(o).Some? ==> TagOf(o) != TagOf(item)
  {
    IndexKeys(st.sgts);
    if TagOf(item).Some? {
      HolderListed(st.sgts, TagOf(item).value);
    }
  }

  // --- a second run retries only what did not land --------------------------------

  // The first run's target against the target it left behind.
  ghost predicate RanFrom(st: Store, after: Store, items: seq<Object>) {
    && Grown(st, after)
    && MadeByReport(after.sgts[|st.sgts|..], Preflight(st, items), KIND_SGT)
    && MadeByReport(after.sgacls[|st.sgacls|..], Preflight(st, items), KIND_SGACL)
  }

  lemma MadeTagsAreFree(st: Store, items: seq<Object>, more: seq<Object>, v: real)
    requires MadeByReport(more, Preflight(st, items), KIND_SGT) && v in Holders(st.sgts)
    ensures forall o :: o in more ==> TagOf(o) != Some(v)
  {
    hide Preflight, Holders, SgtVerdict;
    HolderListed(st.sgts, v);
    forall o | o in more
      ensures TagOf(o) != Some(v)
    {
      var i :| 0 <= i < |Preflight(st, items)| && MadeBy(o, Preflight(st, items)[i], KIND_SGT);
      VerdictOfMade(st, items, i);
      ClearedValueIsFree(st, Preflight(st, items)[i].obj);
    }
  }

  lemma HoldersKept(st: Store, after: Store, items: seq<Object>, v: real)
    requires RanFrom(st, after, items) && v in Holders(st.sgts)
    ensures v in Holders(after.sgts) && Holders(after.sgts)[v] == Holders(st.sgts)[v]
  {
    hide Preflight, Holders, MadeByReport;
    var more := after.sgts[|st.sgts|..];
    MadeTagsAreFree(st, items, more, v);
    HoldersGrow(st.sgts, more, v);
    assert after.sgts == st.sgts + more;
  }

  lemma SgtRetry(st: Store, after: Store, items: seq<Object>, item: Object)
    requires RanFrom(st, after, items) && SgtVerdict(after, item).action == Create
    ensures SgtVerdict(st, item).action == Create
    ensures SgtVerdict(st, item).name == SgtVerdict(after, item).name
  {
    hide Preflight, MadeByReport, Holders, IndexByName;
    NamesGrow(st.sgts, after.sgts);
    IndexKeys(st.sgts);
    IndexKeys(after.sgts);
    if TagOf(item).Some? && TagOf(item).value in Holders(st.sgts) {
      HoldersKept(st, after, items, TagOf(item).value);
    }
  }

  lemma SgaclRetry(st: Store, after: Store, item: Object)
    requires Grown(st, after) && SgaclVerdict(after, item).action == Create
    ensures SgaclVerdict(st, item).action == Create
    ensures SgaclVerdict(st, item).name == SgaclVerdict(after, item).name
  {
    NamesGrow(st.sgacls, after.sgacls);
    IndexKeys(st.sgacls);
    IndexKeys(after.sgacls);
  }

  lemma MadeNames(st: Store, items: seq<Object>, more: seq<Object>)
    ensures MadeByReport(more, Preflight(st, items), KIND_SGT) ==> NamesIn(more) <= WillExistSgts(st, items)
    ensures MadeByReport(more, Preflight(st, items), KIND_SGACL) ==> NamesIn(more) <= WillExistSgacls(st, items)
  {
    var r := Preflight(st, items);
    if MadeByReport(more, r, KIND_SGT) {
      forall o | o in more
        ensures Text(o, Name) in WillExistSgts(st, items)
      {
        var i :| 0 <= i < |r| && MadeBy(o, r[i], KIND_SGT);
        VerdictOfMade(st, items, i);
      }
    }
    if MadeByReport(more, r, KIND_SGACL) {
      forall o | o in more
        ensures Text(o, Name) in WillExistSgacls(st, items)
      {
        var i :| 0 <= i < |r| && MadeBy(o, r[i], KIND_SGACL);
        VerdictOfMade(st, items, i);
      }
    }
  }

  lemma NamesSplit(a: seq<Object>, b: seq<Object>)
    requires a <= b
    ensures NamesIn(b) == NamesIn(a) + NamesIn(b[|a|..])
  {
    assert b == a + b[|a|..];
  }

  // The second pre-flight counts on no group and no SGACL the first did not.
  lemma WillExistSgtsShrinks(st: Store, after: Store, items: seq<Object>)
    requires RanFrom(st, after, items)
    ensures WillExistSgts(after, items) <= WillExistSgts(st, items)
  {
    hide SgtVerdict, Preflight, MadeByReport;
    var gs := OfKind(KIND_SGT, items);
    MadeNames(st, items, after.sgts[|st.sgts|..]);
    NamesSplit(st.sgts, after.sgts);
    forall v | v in SgtVerdicts(after, gs) && v.action == Create
      ensures v.name in ToCreate(SgtVerdicts(st, gs))
    {
      var i :| 0 <= i < |gs| && v == SgtVerdict(after, gs[i]);
      SgtRetry(st, after, items, gs[i]);
      assert SgtVerdicts(st, gs)[i] in SgtVerdicts(st, gs);
    }
  }

  lemma WillExistSgaclsShrinks(st: Store, after: Store, items: seq<Object>)
    requires RanFrom(st, after, items)
    ensures WillExistSgacls(after, items) <= WillExistSgacls(st, items)
  {
    hide SgaclVerdict, Preflight, MadeByReport;
    var as_ := OfKind(KIND_SGACL, items);
    MadeNames(st, items, after.sgacls[|st.sgacls|..]);
    NamesSplit(st.sgacls, after.sgacls);
    forall v | v in SgaclVerdicts(after, as_) && v.action == Create
      ensures v.name in ToCreate(SgaclVerdicts(st, as_))
    {
      var i :| 0 <= i < |as_| && v == SgaclVerdict(after, as_[i]);
      SgaclRetry(st, after, as_[i]);
      assert SgaclVerdicts(st, as_)[i] in SgaclVerdicts(st, as_);
    }
  }

  lemma BlockedMonotone(item: Object, g2: set<string>, a2: set<string>, g1: set<string>, a1: set<string>)
    requires g2 <= g1 && a2 <= a1 && CellBlocked(item, g2, a2) == NoReason
    ensures CellBlocked(item, g1, a1) == NoReason
  {
    NoneAbsent(NameList(item, SgaclNames), a2);
    NoneAbsent(NameList(item, SgaclNames), a1);
  }

  lemma CellRetry(st: Store, after: Store, items: seq<Object>, item: Object)
    requires RanFrom(st, after, items)
    requires CellVerdict(after, WillExistSgts(after, items), WillExistSgacls(after, items), item).action == Create
    ensures CellVerdict(st, WillExistSgts(st, items), WillExistSgacls(st, items), item).action == Create
  {
    WillExistSgtsShrinks(st, after, items);
    WillExistSgaclsShrinks(st, after, items);
    BlockedMonotone(item, WillExistSgts(after, items), WillExistSgacls(after, items),
                    WillExistSgts(st, items), WillExistSgacls(st, items));
    var key := CellKey(Text(item, SourceSgtName), Text(item, DestinationSgtName));
    if key in CellIndex(st, st.cells) {
      PairsGrow(st, after, key);
    }
  }

  // Nothing already present is cleared for creation.
  lemma PresentIsSkipped(st: Store, items: seq<Object>, i: nat)
    requires i < |Preflight(st, items)| && Present(st, Preflight(st, items)[i].obj)
    ensures Preflight(st, items)[i].action == Skip
  {
    VerdictAt(st, items, i);
    IndexKeys(st.sgts);
    IndexKeys(st.sgacls);
  }

  lemma RunIsRanFrom(st: Store, asked: nat, answers: nat -> Answer, readable: bool, items: seq<Object>)
    requires Valid(st)
    ensures RanFrom(st, Apply(Start(st, asked), answers, readable, Preflight(st, items)).store, items)
  {
    ApplyGrows(st, asked, answers, readable, Preflight(st, items));
    Provenance(st, asked, answers, readable, Preflight(st, items));
  }

  // Whatever a second pre-flight clears for creation, the first had cleared as
  // well, and it did not land then.
  lemma RerunRetriesOnlyWhatDidNotLand(st: Store, asked: nat, answers: nat -> Answer, readable: bool,
                                       items: seq<Object>)
    requires Valid(st)
    ensures var first := Preflight(st, items);
            var run := Apply(Start(st, asked), answers, readable, first);
            var second := Preflight(run.store, items);
            && |second| == |first| == |run.log|
            && forall i :: 0 <= i < |second| ==>
                 && second[i].obj == first[i].obj
                 && (second[i].action == Create ==> first[i].action == Create && !HasLanded(run.log[i]))
  {
    var first := Preflight(st, items);
    var run := Apply(Start(st, asked), answers, readable, first);
    var second := Preflight(run.store, items);
    ApplyGrows(st, asked, answers, readable, first);
    RunIsRanFrom(st, asked, answers, readable, items);
    forall i | 0 <= i < |second|
      ensures second[i].obj == first[i].obj
      ensures second[i].action == Create ==> first[i].action == Create && !HasLanded(run.log[i])
    {
      VerdictAt(st, items, i);
      VerdictAt(run.store, items, i);
      if second[i].action == Create {
        if i < |OfKind(KIND_SGT, items)| {
          SgtRetry(st, run.store, items, second[i].obj);
        } else if i < |OfKind(KIND_SGT, items)| + |OfKind(KIND_SGACL, items)| {
          SgaclRetry(st, run.store, second[i].obj);
        } else {
          CellRetry(st, run.store, items, second[i].obj);
        }
        if HasLanded(run.log[i]) {
          LandedStays(st, asked, answers, readable, first, i);
          PresentIsSkipped(run.store, items, i);
        }
      }
    }
  }

  lemma {:induction false} NothingToCreate(s: Run, answers: nat -> Answer, readable: bool, report: seq<Verdict>)
    requires forall i :: 0 <= i < |report| ==> report[i].action != Create
    ensures var f := Apply(s, answers, readable, report);
            && f.store == s.store && f.asked == s.asked
  {
    if report != [] {
      NothingToCreate(s, answers, readable, report[..|report| - 1]);
    }
  }

  // When everything the first run cleared landed, a second run sends nothing.
  lemma CompletedRunIsFinal(st: Store, asked: nat, answers: nat -> Answer, readable: bool, items: seq<Object>,
                            later: nat -> Answer)
    requires Valid(st)
    requires var first := Preflight(st, items);
             var run := Apply(Start(st, asked), answers, readable, first);
             forall i :: 0 <= i < |first| && i < |run.log| && first[i].action == Create ==> HasLanded(run.log[i])
    ensures var run := Apply(Start(st, asked), answers, readable, Preflight(st, items));
            var again := Apply(Start(run.store, run.asked), later, readable, Preflight(run.store, items));
            again.store == run.store && again.asked == run.asked
  {
    var run := Apply(Start(st, asked), answers, readable, Preflight(st, items));
    RerunRetriesOnlyWhatDidNotLand(st, asked, answers, readable, items);
    NothingToCreate(Start(run.store, run.asked), later, readable, Preflight(run.store, items));
  }

  // --- references ----------------------------------------------------------------

  lemma KindlessTexts(cell: Object)
    ensures forall k :: k != Kind ==>
              Text(cell - {Kind}, k) == Text(cell, k) && NameList(cell - {Kind}, k) == NameList(cell, k)
  {
  }

  lemma KindlessMeaning(cell: Object)
    ensures Carried(cell - {Kind}) == Carried(cell)
    ensures NamesSgacls(cell - {Kind}) == NamesSgacls(cell)
    ensures forall st, c :: Says(st, c, cell - {Kind}) == Says(st, c, cell)
  {
    hide Text, NameList, Meaning;
    KindlessTexts(cell);
  }

  lemma ResolvedBodyMeans(st: Store, cell: Object, body: Object)
    requires Valid(st) && ResolvedBody(st, cell, body)
    ensures NamesSgacls(cell) ==> RefsPresent(st, body)
    ensures Says(st, body, cell)
  {
    var ids :| TablesHold(st, ids) && MissingRef(cell, ids).None? && body == Compact(Resolved(cell, ids));
    ResolvedMeaning(st, cell, ids);
  }

  // Sent, a cell points at groups and SGACLs the target lists at that moment, and
  // says there what the bundle's cell says: the same pair, the same SGACLs in the
  // same order, the same default rule and status. Of the SGACLs that is so exactly
  // when the bundle's cell names them, as every exported cell does.
  ghost predicate MeansWhatItCarries(cell: Object, o: Outcome) {
    o.Sent? ==>
      && o.where == Cells
      && (NamesSgacls(cell) ==> RefsPresent(o.before, o.body))
      && Says(o.before, o.body, cell)
  }

  lemma StepCellMeans(s: Run, answers: nat -> Answer, readable: bool, it: Verdict)
    requires Sound(s)
    requires KindOf(it.obj) == KIND_CELL
    ensures var t := Step(s, answers, readable, it);
            |t.log| == |s.log| + 1 && MeansWhatItCarries(it.obj, t.log[|s.log|])
  {
    hide Step, After, ReplyTo, ResolvedBody, Says, RefsPresent, NamesSgacls;
    StepSends(s, answers, readable, it);
    var o := Step(s, answers, readable, it).log[|s.log|];
    if o.Sent? {
      KindlessMeaning(it.obj);
      ResolvedBodyMeans(o.before, it.obj - {Kind}, o.body);
    }
  }

  // Under any answers, every cell sent means on the target what it means in the
  // bundle.
  lemma {:induction false} SentCellsMeanWhatTheyCarry(st: Store, asked: nat, answers: nat -> Answer, readable: bool,
                                                      report: seq<Verdict>, i: nat)
    requires Valid(st) && i < |report|
    requires KindOf(report[i].obj) == KIND_CELL
    ensures var log := Apply(Start(st, asked), answers, readable, report).log;
            i < |log| && MeansWhatItCarries(report[i].obj, log[i])
  {
    hide Step, MeansWhatItCarries, Grown;
    var n := |report| - 1;
    var s := Apply(Start(st, asked), answers, readable, report[..n]);
    ApplyGrows(st, asked, answers, readable, report[..n]);
    if i < n {
      SentCellsMeanWhatTheyCarry(st, asked, answers, readable, report[..n], i);
      StepGrows(s, answers, readable, report[n]);
    } else {
      StepCellMeans(s, answers, readable, report[n]);
    }
  }
}
