// Further whole-run properties of the TrustSec import: tag values stay distinct,
// every item is accounted for, and a cell keeps its meaning from the source
// deployment to the target.
module TrustSecMore {
  import opened Objects
  import opened Report
  import opened TrustSecStore
  import opened TrustSec
  import opened TrustSecGrowth
  import opened TrustSecTheorems

  // --- tag values ----------------------------------------------------------------

  // No two of the objects carry the same tag value.
  ghost predicate DistinctTags(objs: seq<Object>) {
    forall i, j :: 0 <= i < j < |objs| && TagOf(objs[i]).Some? ==> TagOf(objs[i]) != TagOf(objs[j])
  }

  lemma MadeTagIsNew(st: Store, items: seq<Object>, n: nat, made: seq<Object>, o: Object)
    requires n < |Preflight(st, items)| && DistinctTags(OfKind(KIND_SGT, items))
    requires MadeByReport(made, Preflight(st, items)[..n], KIND_SGT)
    requires MadeBy(o, Preflight(st, items)[n], KIND_SGT)
    ensures TagOf(o).Some? ==> forall x :: x in st.sgts || x in made ==> TagOf(x) != TagOf(o)
  {
    var report := Preflight(st, items);
    var gs := OfKind(KIND_SGT, items);
    VerdictAt(st, items, n);
    VerdictOfMade(st, items, n);
    ClearedValueIsFree(st, report[n].obj);
    forall x | x in made && TagOf(o).Some?
      ensures TagOf(x) != TagOf(o)
    {
      var i :| 0 <= i < n && MadeBy(x, report[..n][i], KIND_SGT);
      VerdictAt(st, items, i);
      assert TagOf(x) == TagOf(gs[i]) && TagOf(o) == TagOf(gs[n]);
    }
  }

  lemma StepTags(st: Store, s: Run, answers: nat -> Answer, readable: bool, items: seq<Object>, n: nat)
    requires n < |Preflight(st, items)| && DistinctTags(OfKind(KIND_SGT, items))
    requires Sound(s)
    requires st.sgts <= s.store.sgts && MadeByReport(s.store.sgts[|st.sgts|..], Preflight(st, items)[..n], KIND_SGT)
    requires DistinctTags(s.store.sgts)
    ensures DistinctTags(Step(s, answers, readable, Preflight(st, items)[n]).store.sgts)
  {
    var it := Preflight(st, items)[n];
    StepSends(s, answers, readable, it);
    var t := Step(s, answers, readable, it);
    var out := t.log[|s.log|];
    if HasLanded(out) && out.where == Sgts {
      var o := Stored(out.body, answers(s.asked).id);
      StoredFrom(it, answers(s.asked).id);
      MadeTagIsNew(st, items, n, s.store.sgts[|st.sgts|..], o);
      TagAppended(st.sgts, s.store.sgts, o);
    }
  }

  lemma TagAppended(before: seq<Object>, objs: seq<Object>, o: Object)
    requires before <= objs && DistinctTags(objs)
    requires TagOf(o).Some? ==> forall x :: x in before || x in objs[|before|..] ==> TagOf(x) != TagOf(o)
    ensures DistinctTags(objs + [o])
  {
    assert objs == before + objs[|before|..];
    assert forall x :: x in objs ==> x in before || x in objs[|before|..];
    assert forall i :: 0 <= i < |objs| ==> objs[i] in objs;
  }

  lemma {:induction false} TagsUpTo(st: Store, asked: nat, answers: nat -> Answer, readable: bool,
                                    items: seq<Object>, k: nat)
    requires Valid(st) && k <= |Preflight(st, items)|
    requires DistinctTags(st.sgts) && DistinctTags(OfKind(KIND_SGT, items))
    ensures DistinctTags(Apply(Start(st, asked), answers, readable, Preflight(st, items)[..k]).store.sgts)
  {
    hide Step, Preflight, DistinctTags, MadeByReport;
    if k > 0 {
      var report := Preflight(st, items);
      TagsUpTo(st, asked, answers, readable, items, k - 1);
      ApplyGrows(st, asked, answers, readable, report[..k - 1]);
      Provenance(st, asked, answers, readable, report[..k - 1]);
      StepTags(st, Apply(Start(st, asked), answers, readable, report[..k - 1]), answers, readable, items, k - 1);
      assert report[..k][..k - 1] == report[..k - 1];
    }
  }

  // A tag value is never renumbered, and never given to two groups: when the
  // target's listed values are distinct and the bundle's are, they are distinct
  // after any run, and the target's own groups are as they were.
  lemma TagValuesStayDistinct(st: Store, asked: nat, answers: nat -> Answer, readable: bool, items: seq<Object>)
    requires Valid(st) && DistinctTags(st.sgts) && DistinctTags(OfKind(KIND_SGT, items))
    ensures var f := Apply(Start(st, asked), answers, readable, Preflight(st, items));
            && DistinctTags(f.store.sgts)
            && st.sgts <= f.store.sgts && st.sgacls <= f.store.sgacls && st.cells <= f.store.cells
  {
    var report := Preflight(st, items);
    TagsUpTo(st, asked, answers, readable, items, |report|);
    assert report[..|report|] == report;
    ApplyGrows(st, asked, answers, readable, report);
  }

  // --- accounting ------------------------------------------------------------------

  datatype Counter = AsCreated | AsSkipped | AsBlocked | AsFailed | Nowhere

  // The counter an item belongs in: what landed is created, what pre-flight skipped
  // or the target already has is skipped, what pre-flight blocked is blocked, and
  // whatever else was reached failed.
  function CounterOf(it: Verdict, o: Outcome): Counter {
    if o.NotReached? then Nowhere
    else if o.Sent? && o.reply == Landed then AsCreated
    else if it.action == Skip || (o.Sent? && o.reply == AlreadyThere) then AsSkipped
    else if it.action == Blocked then AsBlocked
    else AsFailed
  }

  function HowMany(report: seq<Verdict>, log: seq<Outcome>, c: Counter): nat {
    if report == [] || log == [] then 0
    else
      HowMany(report[..|report| - 1], log[..|log| - 1], c)
      + if CounterOf(report[|report| - 1], log[|log| - 1]) == c then 1 else 0
  }

  // One item more, in its counter.
  ghost predicate CountsOne(s: Run, t: Run, it: Verdict) {
    && |t.log| == |s.log| + 1 && t.log[..|s.log|] == s.log
    && var c := CounterOf(it, t.log[|s.log|]);
       && t.tally.created == s.tally.created + (if c == AsCreated then 1 else 0)
       && t.tally.skipped == s.tally.skipped + (if c == AsSkipped then 1 else 0)
       && t.tally.blocked == s.tally.blocked + (if c == AsBlocked then 1 else 0)
       && t.tally.failed == s.tally.failed + (if c == AsFailed then 1 else 0)
  }

  lemma SendCounts(s: Run, answers: nat -> Answer, where: Collection, body: Object, it: Verdict)
    requires !s.halted && it.action == Create
    ensures CountsOne(s, Send(s, answers, where, body), it) && Send(s, answers, where, body).log[|s.log|].Sent?
    ensures !Send(s, answers, where, body).halted
  {
    hide ReplyTo, After;
  }

  // An item that is sent, or cannot be: what it is logged as, and counted.
  lemma AttemptCounts(s: Run, answers: nat -> Answer, readable: bool, kind: string, obj: Object, it: Verdict)
    requires !s.halted && it.action == Create
    ensures var t := Attempt(s, answers, readable, kind, obj);
            && CountsOne(s, t, it) && !t.log[|s.log|].Counted?
            && (t.halted <==> t.log[|s.log|].NotReached?)
            && (t.halted <==> kind == KIND_CELL && s.ids.None? && !readable)
  {
    hide Resolved, Compact, MissingRef, Send, IdsOf;
    if kind == KIND_SGT {
      SendCounts(s, answers, Sgts, Compact(obj), it);
    } else if kind == KIND_SGACL {
      SendCounts(s, answers, Sgacls_, Compact(obj), it);
    } else if kind == KIND_CELL && (s.ids.Some? || readable) {
      var ids := if s.ids.Some? then s.ids.value else IdsOf(s.store);
      var t := s.(ids := Some(ids));
      if MissingRef(obj, ids).None? {
        SendCounts(t, answers, Cells, Compact(Resolved(obj, ids)), it);
        CountsFrom(s, t, Send(t, answers, Cells, Compact(Resolved(obj, ids))), it);
      }
    }
  }

  lemma CountsFrom(s: Run, t: Run, u: Run, it: Verdict)
    requires CountsOne(t, u, it) && s.log == t.log && s.tally == t.tally
    ensures CountsOne(s, u, it)
  {
  }

  lemma StepCounts(s: Run, answers: nat -> Answer, readable: bool, it: Verdict)
    ensures var t := Step(s, answers, readable, it);
            && CountsOne(s, t, it)
            && (t.halted <==> t.log[|s.log|].NotReached?)
            && (s.halted ==> t.halted)
            && (!s.halted ==> (t.log[|s.log|].Counted? <==> it.action != Create))
  {
    hide Attempt;
    if !s.halted && it.action == Create {
      AttemptCounts(s, answers, readable, KindOf(it.obj), it.obj - {Kind}, it);
    }
  }

  // Every item of the report is counted once, in the counter it belongs in, unless
  // apply returned before it.
  lemma {:induction false} EveryItemIsCounted(st: Store, asked: nat, answers: nat -> Answer, readable: bool,
                                              report: seq<Verdict>)
    ensures var f := Apply(Start(st, asked), answers, readable, report);
            && |f.log| == |report|
            && f.tally == Tally(HowMany(report, f.log, AsCreated), HowMany(report, f.log, AsSkipped),
                                HowMany(report, f.log, AsBlocked), HowMany(report, f.log, AsFailed))
  {
    hide Step, CounterOf;
    if report != [] {
      var n := |report| - 1;
      EveryItemIsCounted(st, asked, answers, readable, report[..n]);
      StepCounts(Apply(Start(st, asked), answers, readable, report[..n]), answers, readable, report[n]);
    }
  }

  // Apply returns early exactly when the target's ids cannot be read, at the first
  // cell there is to create; and it passes over exactly what is not to be created.
  lemma {:induction false} ReachedExactly(st: Store, asked: nat, answers: nat -> Answer, readable: bool,
                                          report: seq<Verdict>, i: nat)
    requires i < |report|
    ensures var f := Apply(Start(st, asked), answers, readable, report);
            && |f.log| == |report|
            && (f.log[i].NotReached? <==> !readable && CellDue(report, i))
            && (f.log[i].Counted? <==> report[i].action != Create && !f.log[i].NotReached?)
  {
    hide Step, CounterOf;
    EveryItemIsCounted(st, asked, answers, readable, report);
    var n := |report| - 1;
    var s := Apply(Start(st, asked), answers, readable, report[..n]);
    var f := Apply(Start(st, asked), answers, readable, report);
    EveryItemIsCounted(st, asked, answers, readable, report[..n]);
    StepCounts(s, answers, readable, report[n]);
    if i < n {
      ReachedExactly(st, asked, answers, readable, report[..n], i);
      assert CellDue(report[..n], i) <==> CellDue(report, i);
    } else {
      HaltsExactly(st, asked, answers, readable, report[..n]);
      StepHalts(s, answers, readable, report[n]);
    }
  }

  // There is a cell to create at i or before.
  ghost predicate CellDue(report: seq<Verdict>, i: nat) {
    exists j :: 0 <= j <= i && j < |report| && report[j].action == Create && Text(report[j].obj, Kind) == "egressCell"
  }

  lemma StepHalts(s: Run, answers: nat -> Answer, readable: bool, it: Verdict)
    ensures var t := Step(s, answers, readable, it);
            && (t.halted <==>
                  s.halted || (it.action == Create && KindOf(it.obj) == KIND_CELL && s.ids.None? && !readable))
            && (t.ids.Some? ==> s.ids.Some? || readable)
  {
    hide Resolved, Compact, MissingRef, ReplyTo, After, IdsOf;
  }

  lemma {:induction false} HaltsExactly(st: Store, asked: nat, answers: nat -> Answer, readable: bool,
                                        report: seq<Verdict>)
    ensures var f := Apply(Start(st, asked), answers, readable, report);
            && (f.halted <==> !readable && CellDue(report, |report|))
            && (f.ids.Some? ==> readable)
  {
    hide Step, KindOf;
    if report != [] {
      var n := |report| - 1;
      HaltsExactly(st, asked, answers, readable, report[..n]);
      StepHalts(Apply(Start(st, asked), answers, readable, report[..n]), answers, readable, report[n]);
      DueNext(report);
    }
  }

  lemma DueNext(report: seq<Verdict>)
    requires report != []
    ensures var n := |report| - 1;
            CellDue(report, |report|) <==>
              CellDue(report[..n], n) || (report[n].action == Create && KindOf(report[n].obj) == KIND_CELL)
  {
    hide Text;
    var n := |report| - 1;
    if CellDue(report[..n], n) {
      var j :| 0 <= j <= n && j < n
               && report[..n][j].action == Create && Text(report[..n][j].obj, Kind) == "egressCell";
      assert report[j] == report[..n][j];
    }
    if j :| 0 <= j < n && report[j].action == Create && Text(report[j].obj, Kind) == "egressCell" {
      assert report[..n][j] == report[j];
    }
  }

  // --- from the source deployment to the target --------------------------------------

  // A cell as the API returns it: references by id only.
  ghost predicate Raw(cell: Object) {
    SourceSgtName !in cell && DestinationSgtName !in cell && SgaclNames !in cell
  }

  lemma NoEmptyId(st: Store)
    requires Valid(st)
    ensures SgtName(st, "") == ""
  {
    NameByIdKeys(st.sgts, "");
    NameByIdKeys(st.hiddenSgts, "");
    assert forall o :: o in st.sgts || o in st.hiddenSgts ==> o in st.sgts + st.hiddenSgts;
  }

  lemma PortableKeeps(o: Object, k: Key)
    requires k !in {Id, Link, GenerationId, MatrixId}
    ensures Text(Portable(o), k) == Text(o, k) && NameList(Portable(o), k) == NameList(o, k)
  {
    var p := o - {GenerationId, MatrixId};
    StripKeepsText(p, k);
    StripKeepsNames(p, k);
    assert (k in p <==> k in o) && (k in p ==> p[k] == o[k]);
  }

  ghost function Renamed(st: Store, cell: Object): Object {
    var c0 := cell[Kind := Str(KIND_CELL)];
    var c1 := NamedRef(c0, SourceSgtId, SourceSgtName, SgtName(st, Text(c0, SourceSgtId)));
    var c2 := NamedRef(c1, DestinationSgtId, DestinationSgtName, SgtName(st, Text(c1, DestinationSgtId)));
    NamedSgacls(st, c2)
  }

  // The two agree on every property outside `off`.
  ghost predicate Agree(a: Object, b: Object, off: set<Key>) {
    forall k :: k !in off ==> (k in a <==> k in b) && (k in a ==> a[k] == b[k])
  }

  lemma AgreeReads(a: Object, b: Object, off: set<Key>)
    requires Agree(a, b, off)
    ensures forall k :: k !in off ==> Text(a, k) == Text(b, k)
    ensures forall k :: k !in off ==> NameList(a, k) == NameList(b, k)
    ensures forall k :: k !in off ==> (k in a <==> k in b)
  {
  }

  lemma KindAdded(cell: Object)
    ensures var c := cell[Kind := Str(KIND_CELL)];
            Text(c, Kind) == KIND_CELL && Agree(c, cell, {Kind})
  {
  }

  lemma RefNamed(st: Store, cell: Object, from: Key, to: Key)
    requires Valid(st) && to !in cell && from != to
    ensures var c := NamedRef(cell, from, to, SgtName(st, Text(cell, from)));
            Text(c, to) == SgtName(st, Text(cell, from)) && Agree(c, cell, {from, to})
  {
    NoEmptyId(st);
  }

  lemma SgaclsNamed(st: Store, cell: Object)
    requires SgaclNames !in cell
    ensures var c := NamedSgacls(st, cell);
            && NameList(c, Sgacls) == [] && Agree(c, cell, {Sgacls, SgaclNames})
            && (NameList(c, SgaclNames) == SgaclNamesOf(st, NameList(cell, Sgacls)) <==>
                 "" !in SgaclNamesOf(st, NameList(cell, Sgacls)))
  {
    if "" !in SgaclNamesOf(st, NameList(cell, Sgacls)) {
      StringsOfList(SgaclNamesOf(st, NameList(cell, Sgacls)));
    }
  }

  const REFS := {Kind, SourceSgtId, SourceSgtName, DestinationSgtId, DestinationSgtName}

  // The two groups named.
  lemma GroupsNamed(st: Store, cell: Object, c0: Object, c1: Object, c2: Object)
    requires Valid(st) && Raw(cell) && c0 == cell[Kind := Str(KIND_CELL)]
    requires c1 == NamedRef(c0, SourceSgtId, SourceSgtName, SgtName(st, Text(c0, SourceSgtId)))
    requires c2 == NamedRef(c1, DestinationSgtId, DestinationSgtName, SgtName(st, Text(c1, DestinationSgtId)))
    ensures Agree(c2, cell, REFS) && Text(c2, Kind) == KIND_CELL
    ensures Text(c2, SourceSgtName) == SgtName(st, Text(cell, SourceSgtId))
    ensures Text(c2, DestinationSgtName) == SgtName(st, Text(cell, DestinationSgtId))
  {
    hide NamedRef, Valid, Agree, Text, NameList, SgtName;
    KindAdded(cell);
    AgreeReads(c0, cell, {Kind});
    RefNamed(st, c0, SourceSgtId, SourceSgtName);
    AgreeReads(c1, c0, {SourceSgtId, SourceSgtName});
    RefNamed(st, c1, DestinationSgtId, DestinationSgtName);
    AgreeReads(c2, c1, {DestinationSgtId, DestinationSgtName});
    AgreeOn(c0, cell, {Kind}, REFS);
    AgreeOn(c1, c0, {SourceSgtId, SourceSgtName}, REFS);
    AgreeOn(c2, c1, {DestinationSgtId, DestinationSgtName}, REFS);
    AgreeTrans(c1, c0, cell, REFS);
    AgreeTrans(c2, c1, cell, REFS);
  }

  lemma AgreeOn(a: Object, b: Object, off: set<Key>, more: set<Key>)
    requires Agree(a, b, off) && off <= more
    ensures Agree(a, b, more)
  {
  }

  lemma AgreeTrans(a: Object, b: Object, c: Object, off: set<Key>)
    requires Agree(a, b, off) && Agree(b, c, off)
    ensures Agree(a, c, off)
  {
  }

  // What renaming gives for every part of a cell's meaning; the SGACLs are all
  // carried exactly when none of them has an empty name.
  lemma RenamedCarries(st: Store, cell: Object)
    requires Valid(st) && Raw(cell)
    ensures Carried(Renamed(st, cell)) == Meaning(st, cell) <==> "" !in SgaclNamesOf(st, NameList(cell, Sgacls))
    ensures NameList(Renamed(st, cell), Sgacls) == [] && KindOf(Renamed(st, cell)) == KIND_CELL
  {
    hide NamedRef, NamedSgacls, Valid, Agree, Text, NameList, SgtName, SgaclNamesOf;
    var c0 := cell[Kind := Str(KIND_CELL)];
    var c1 := NamedRef(c0, SourceSgtId, SourceSgtName, SgtName(st, Text(c0, SourceSgtId)));
    var c2 := NamedRef(c1, DestinationSgtId, DestinationSgtName, SgtName(st, Text(c1, DestinationSgtId)));
    GroupsNamed(st, cell, c0, c1, c2);
    AgreeReads(c2, cell, REFS);
    SgaclsNamed(st, c2);
    AgreeReads(NamedSgacls(st, c2), c2, {Sgacls, SgaclNames});
  }

  lemma ExportIsPortable(st: Store, cell: Object)
    ensures ExportCell(st, cell) == Portable(Renamed(st, cell))
  {
    hide NamedRef, NamedSgacls, Portable;
  }

  // The bundle's copy of a cell says by name what the cell says by id, exactly
  // when none of its SGACLs has an empty name: a list drops those.
  lemma ExportKeepsMeaning(st: Store, cell: Object)
    requires Valid(st) && Raw(cell)
    ensures Carried(ExportCell(st, cell)) == Meaning(st, cell) <==> "" !in SgaclNamesOf(st, NameList(cell, Sgacls))
    ensures NameList(ExportCell(st, cell), Sgacls) == [] && KindOf(ExportCell(st, cell)) == KIND_CELL
  {
    hide Renamed, Portable, Text, NameList;
    RenamedCarries(st, cell);
    var r := Renamed(st, cell);
    ExportIsPortable(st, cell);
    PortableKeeps(r, SourceSgtName);
    PortableKeeps(r, DestinationSgtName);
    PortableKeeps(r, SgaclNames);
    PortableKeeps(r, Sgacls);
    PortableKeeps(r, DefaultRule);
    PortableKeeps(r, MatrixCellStatus);
    PortableKeeps(r, Kind);
  }

  // References survive the change of identity: a cell exported from one
  // deployment and sent to another says there, by the target's own ids, what it
  // said on the source, under any answers the target gives.
  lemma MigrationKeepsMeaning(source: Store, cell: Object, target: Store, asked: nat, answers: nat -> Answer,
                              readable: bool, report: seq<Verdict>, i: nat)
    requires Valid(source) && Valid(target) && Raw(cell)
    requires i < |report| && report[i].obj == ExportCell(source, cell)
    ensures var log := Apply(Start(target, asked), answers, readable, report).log;
            && i < |log|
            && (log[i].Sent? ==>
                  && RefsPresent(log[i].before, log[i].body)
                  && (Meaning(log[i].before, log[i].body) == Meaning(source, cell) <==>
                        "" !in SgaclNamesOf(source, NameList(cell, Sgacls))))
  {
    ExportKeepsMeaning(source, cell);
    SentCellsMeanWhatTheyCarry(target, asked, answers, readable, report, i);
  }
}
