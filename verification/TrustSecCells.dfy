// The egress cells of an import: which of those pre-flight clears are sent, where
// the cells a target gains come from, and how they read on the next pre-flight.
module TrustSecCells {
  import opened Objects
  import opened Report
  import opened TrustSecStore
  import opened TrustSec
  import opened TrustSecGrowth
  import opened TrustSecTheorems

  lemma {:induction false} LogOfPrefix(st: Store, asked: nat, answers: nat -> Answer, readable: bool,
                                       report: seq<Verdict>, k: nat)
    requires Valid(st) && k <= |report|
    ensures |Apply(Start(st, asked), answers, readable, report).log| == |report|
    ensures Apply(Start(st, asked), answers, readable, report[..k]).log
         == Apply(Start(st, asked), answers, readable, report).log[..k]
  {
    hide Step, Grown, Sound;
    ApplyGrows(st, asked, answers, readable, report);
    ApplyGrows(st, asked, answers, readable, report[..k]);
    if k == |report| {
      assert report[..k] == report;
    } else {
      var n := |report| - 1;
      LogOfPrefix(st, asked, answers, readable, report[..n], k);
      assert report[..n][..k] == report[..k];
      ApplyGrows(st, asked, answers, readable, report[..n]);
      StepGrows(Apply(Start(st, asked), answers, readable, report[..n]), answers, readable, report[n]);
    }
  }

  // --- which cleared cells resolve ----------------------------------------------

  ghost predicate IsCell(it: Verdict) { KindOf(it.obj) == KIND_CELL }

  // The names of the items of a kind that landed.
  function LandedNames(report: seq<Verdict>, log: seq<Outcome>, kind: string): set<string> {
    set i | 0 <= i < |report| && i < |log| && KindOf(report[i].obj) == kind && HasLanded(log[i]) ::
        Text(report[i].obj, Name)
  }

  // The names the target lists once the groups and the SGACLs have been handled.
  function KnownSgts(st: Store, report: seq<Verdict>, log: seq<Outcome>): set<string> {
    NamesIn(st.sgts) + LandedNames(report, log, KIND_SGT)
  }

  function KnownSgacls(st: Store, report: seq<Verdict>, log: seq<Outcome>): set<string> {
    NamesIn(st.sgacls) + LandedNames(report, log, KIND_SGACL)
  }

  lemma LandedNext(report: seq<Verdict>, it: Verdict, log: seq<Outcome>, o: Outcome, kind: string)
    requires |report| == |log|
    ensures LandedNames(report + [it], log + [o], kind)
         == LandedNames(report, log, kind) + if KindOf(it.obj) == kind && HasLanded(o) then {Text(it.obj, Name)} else {}
  {
    hide Text, HasLanded;
    var r, l := report + [it], log + [o];
    assert r[|report|] == it && l[|log|] == o;
    forall n | n in LandedNames(report, log, kind)
      ensures n in LandedNames(r, l, kind)
    {
      var i :| 0 <= i < |report| && KindOf(report[i].obj) == kind && HasLanded(log[i])
               && n == Text(report[i].obj, Name);
      assert r[i] == report[i] && l[i] == log[i];
    }
  }

  lemma NamesAppended(objs: seq<Object>, o: Object)
    ensures NamesIn(objs + [o]) == NamesIn(objs) + {Text(o, Name)}
  {
    hide Text;
    assert o in objs + [o];
  }

  // One item adds its name to the target's list of its kind exactly if it lands.
  lemma StepNames(s: Run, answers: nat -> Answer, readable: bool, it: Verdict)
    requires Sound(s)
    ensures var t := Step(s, answers, readable, it);
            && |t.log| == |s.log| + 1 && t.log[..|s.log|] == s.log
            && var landed := HasLanded(t.log[|s.log|]);
               && NamesIn(t.store.sgts)
                    == NamesIn(s.store.sgts)
                       + (if KindOf(it.obj) == KIND_SGT && landed then {Text(it.obj, Name)} else {})
               && NamesIn(t.store.sgacls)
                    == NamesIn(s.store.sgacls)
                       + (if KindOf(it.obj) == KIND_SGACL && landed then {Text(it.obj, Name)} else {})
  {
    hide Step, ResolvedBody, NamesIn, Text, Unused, TablesHold, Valid, Stored;
    StepSends(s, answers, readable, it);
    var o := Step(s, answers, readable, it).log[|s.log|];
    if HasLanded(o) {
      var a := answers(s.asked);
      NamesAppended(s.store.sgts, Stored(o.body, a.id));
      NamesAppended(s.store.sgacls, Stored(o.body, a.id));
      StoredName(it, a.id);
    }
  }

  lemma StoredName(it: Verdict, id: string)
    ensures Text(Stored(Compact(it.obj - {Kind}), id), Name) == Text(it.obj, Name)
  {
    CompactKeepsText(it.obj - {Kind}, Name);
  }

  lemma {:induction false} NamesAfter(st: Store, asked: nat, answers: nat -> Answer, readable: bool,
                                      report: seq<Verdict>)
    requires Valid(st)
    ensures var f := Apply(Start(st, asked), answers, readable, report);
            && |f.log| == |report|
            && NamesIn(f.store.sgts) == KnownSgts(st, report, f.log)
            && NamesIn(f.store.sgacls) == KnownSgacls(st, report, f.log)
  {
    hide Step, NamesIn, LandedNames, Text, Sound, Grown, HasLanded;
    ApplyGrows(st, asked, answers, readable, report);
    if report == [] {
      assert LandedNames([], [], KIND_SGT) == {} && LandedNames([], [], KIND_SGACL) == {} by { NoneLanded(); }
    } else {
      var n := |report| - 1;
      var s := Apply(Start(st, asked), answers, readable, report[..n]);
      var f := Apply(Start(st, asked), answers, readable, report);
      NamesAfter(st, asked, answers, readable, report[..n]);
      ApplyGrows(st, asked, answers, readable, report[..n]);
      StepNames(s, answers, readable, report[n]);
      assert report == report[..n] + [report[n]] && f.log == s.log + [f.log[n]];
      LandedNext(report[..n], report[n], s.log, f.log[n], KIND_SGT);
      LandedNext(report[..n], report[n], s.log, f.log[n], KIND_SGACL);
    }
  }

  lemma NoneLanded()
    ensures forall kind :: LandedNames([], [], kind) == {}
  {
  }

  function CellsFrom(items: seq<Object>): nat {
    |OfKind(KIND_SGT, items)| + |OfKind(KIND_SGACL, items)|
  }

  // From the first cell on, nothing but cells is handled.
  lemma KnownFromCells(st: Store, items: seq<Object>, log: seq<Outcome>, k: nat)
    requires CellsFrom(items) <= k <= |Preflight(st, items)| == |log|
    ensures KnownSgts(st, Preflight(st, items)[..k], log[..k]) == KnownSgts(st, Preflight(st, items), log)
    ensures KnownSgacls(st, Preflight(st, items)[..k], log[..k]) == KnownSgacls(st, Preflight(st, items), log)
  {
    hide Preflight, Text, HasLanded;
    var report := Preflight(st, items);
    forall i | 0 <= i < |report|
      ensures i < k || KindOf(report[i].obj) == KIND_CELL
    {
      VerdictAt(st, items, i);
    }
    LandedBefore(report, log, k, KIND_SGT);
    LandedBefore(report, log, k, KIND_SGACL);
  }

  lemma LandedBefore(report: seq<Verdict>, log: seq<Outcome>, k: nat, kind: string)
    requires k <= |report| == |log| && forall i :: k <= i < |report| ==> KindOf(report[i].obj) != kind
    ensures LandedNames(report[..k], log[..k], kind) == LandedNames(report, log, kind)
  {
    hide Text, HasLanded;
    forall n | n in LandedNames(report, log, kind)
      ensures n in LandedNames(report[..k], log[..k], kind)
    {
      var i :| 0 <= i < |report| && KindOf(report[i].obj) == kind && HasLanded(log[i])
               && n == Text(report[i].obj, Name);
      assert i < k && report[..k][i] == report[i] && log[..k][i] == log[i];
    }
    forall n | n in LandedNames(report[..k], log[..k], kind)
      ensures n in LandedNames(report, log, kind)
    {
      var i :| 0 <= i < k && KindOf(report[..k][i].obj) == kind && HasLanded(log[..k][i])
               && n == Text(report[..k][i].obj, Name);
      assert report[..k][i] == report[i] && log[..k][i] == log[i];
    }
  }

  // The tables list exactly the names known.
  ghost predicate Covers(st: Store, report: seq<Verdict>, log: seq<Outcome>, ids: Ids) {
    ids.sgts.Keys == KnownSgts(st, report, log) && ids.sgacls.Keys == KnownSgacls(st, report, log)
  }

  lemma ReadTablesCover(st: Store, asked: nat, answers: nat -> Answer, readable: bool, items: seq<Object>, k: nat)
    requires Valid(st) && k < |Preflight(st, items)| && IsCell(Preflight(st, items)[k])
    ensures var log := Apply(Start(st, asked), answers, readable, Preflight(st, items)).log;
            Covers(st, Preflight(st, items), log, IdsOf(Apply(Start(st, asked), answers, readable, Preflight(st,
                items)[..k]).store))
  {
    var report := Preflight(st, items);
    VerdictAt(st, items, k);
    hide Preflight, Apply, KnownSgts, KnownSgacls, IdByName, NamesIn, Valid, OfKind;
    var s := Apply(Start(st, asked), answers, readable, report[..k]);
    NamesAfter(st, asked, answers, readable, report[..k]);
    LogOfPrefix(st, asked, answers, readable, report, k);
    KnownFromCells(st, items, Apply(Start(st, asked), answers, readable, report).log, k);
    IndexKeys(s.store.sgts);
    IndexKeys(s.store.sgacls);
  }

  lemma {:induction false} TablesCover(st: Store, asked: nat, answers: nat -> Answer, readable: bool,
                                       items: seq<Object>, k: nat)
    requires Valid(st) && k <= |Preflight(st, items)|
    ensures var s := Apply(Start(st, asked), answers, readable, Preflight(st, items)[..k]);
            s.ids.Some? ==> Covers(st, Preflight(st, items), Apply(Start(st, asked), answers, readable, Preflight(st,
                items)).log, s.ids.value)
  {
    hide Step, Preflight, Covers, Advances, SentFor, Grown;
    var report := Preflight(st, items);
    if k > 0 {
      TablesCover(st, asked, answers, readable, items, k - 1);
      assert report[..k][..k - 1] == report[..k - 1];
      ApplyGrows(st, asked, answers, readable, report[..k - 1]);
      StepSends(Apply(Start(st, asked), answers, readable, report[..k - 1]), answers, readable, report[k - 1]);
      if IsCell(report[k - 1]) {
        ReadTablesCover(st, asked, answers, readable, items, k - 1);
      }
    }
  }

  // Every name a cell carries is among these.
  predicate NamesKnown(cell: Object, sgts: set<string>, sgacls: set<string>) {
    && Text(cell, SourceSgtName) in sgts && Text(cell, DestinationSgtName) in sgts
    && forall n :: n in NameList(cell, SgaclNames) ==> n in sgacls
  }

  lemma ResolvesExactly(item: Object, ids: Ids)
    ensures MissingRef(item - {Kind}, ids).None? <==> NamesKnown(item, ids.sgts.Keys, ids.sgacls.Keys)
  {
    hide Text, NameList;
    KindlessTexts(item);
    NoneAbsent(NameList(item, SgaclNames), ids.sgacls.Keys);
  }

  lemma StepSendsResolved(s: Run, answers: nat -> Answer, it: Verdict)
    requires !s.halted && it.action == Create && IsCell(it)
    ensures var t := Step(s, answers, true, it);
            && |t.log| == |s.log| + 1
            && (t.log[|s.log|].Sent? <==> MissingRef(it.obj - {Kind},
                 if s.ids.Some? then s.ids.value else IdsOf(s.store)).None?)
  {
    hide MissingRef, Resolved, Compact, After, ReplyTo;
  }

  // When the target's ids can be read, a cell pre-flight cleared is sent if and
  // only if each group and SGACL it names was on the target before the run or
  // landed in it.
  lemma CellSentExactly(st: Store, asked: nat, answers: nat -> Answer, items: seq<Object>, i: nat)
    requires Valid(st) && i < |Preflight(st, items)|
    requires Preflight(st, items)[i].action == Create && IsCell(Preflight(st, items)[i])
    ensures var report := Preflight(st, items);
            var log := Apply(Start(st, asked), answers, true, report).log;
            && i < |log|
            && (log[i].Sent? <==> NamesKnown(report[i].obj, KnownSgts(st, report, log), KnownSgacls(st, report, log)))
  {
    hide Step, Preflight, NamesKnown, MissingRef, KnownSgts, KnownSgacls;
    var report := Preflight(st, items);
    var s := Apply(Start(st, asked), answers, true, report[..i]);
    var ids := if s.ids.Some? then s.ids.value else IdsOf(s.store);
    TablesCover(st, asked, answers, true, items, i);
    ReadTablesCover(st, asked, answers, true, items, i);
    ResolvesExactly(report[i].obj, ids);
    NeverHalts(st, asked, answers, report[..i]);
    StepSendsResolved(s, answers, report[i]);
    LogOfPrefix(st, asked, answers, true, report, i);
    LogOfPrefix(st, asked, answers, true, report, i + 1);
    assert report[..i + 1][..i] == report[..i];
  }

  // No group and no SGACL that pre-flight counted on is missing: of every name it
  // cleared, one create landed.
  ghost predicate PrerequisitesLanded(report: seq<Verdict>, log: seq<Outcome>) {
    forall i :: 0 <= i < |report| && report[i].action == Create && !IsCell(report[i]) ==>
      Text(report[i].obj, Name) in LandedNames(report, log, KindOf(report[i].obj))
  }

  lemma CountedOnIsKnown(st: Store, items: seq<Object>, log: seq<Outcome>)
    requires PrerequisitesLanded(Preflight(st, items), log)
    ensures WillExistSgts(st, items) <= KnownSgts(st, Preflight(st, items), log)
    ensures WillExistSgacls(st, items) <= KnownSgacls(st, Preflight(st, items), log)
  {
    hide Preflight, PrerequisitesLanded, SgtVerdict, SgaclVerdict, LandedNames, NamesIn, OfKind, Text;
    var gs, as_ := OfKind(KIND_SGT, items), OfKind(KIND_SGACL, items);
    forall v | v in SgtVerdicts(st, gs) && v.action == Create
      ensures v.name in LandedNames(Preflight(st, items), log, KIND_SGT)
    {
      var i :| 0 <= i < |gs| && v == SgtVerdict(st, gs[i]);
      ClearedLanded(st, items, log, i);
    }
    forall v | v in SgaclVerdicts(st, as_) && v.action == Create
      ensures v.name in LandedNames(Preflight(st, items), log, KIND_SGACL)
    {
      var i :| 0 <= i < |as_| && v == SgaclVerdict(st, as_[i]);
      ClearedLanded(st, items, log, |gs| + i);
    }
  }

  lemma ClearedLanded(st: Store, items: seq<Object>, log: seq<Outcome>, i: nat)
    requires PrerequisitesLanded(Preflight(st, items), log) && i < CellsFrom(items)
    ensures i < |Preflight(st, items)|
    ensures var v := Preflight(st, items)[i];
            && v == (if i < |OfKind(KIND_SGT, items)| then SgtVerdict(st, OfKind(KIND_SGT, items)[i])
                     else SgaclVerdict(st, OfKind(KIND_SGACL, items)[i - |OfKind(KIND_SGT, items)|]))
            && (v.action == Create ==> v.name in LandedNames(Preflight(st, items), log, if i < |OfKind(KIND_SGT,
                 items)| then KIND_SGT else KIND_SGACL))
  {
    hide OfKind, LandedNames, IndexByName, Holders;
    assert |Preflight(st, items)| >= CellsFrom(items);
    VerdictAt(st, items, i);
  }

  lemma ClearedCellNamesKnown(item: Object, groups: set<string>, sgacls: set<string>, st: Store, known: set<string>,
                              knownAcls: set<string>)
    requires CellVerdict(st, groups, sgacls, item).action == Create && groups <= known && sgacls <= knownAcls
    ensures NamesKnown(item, known, knownAcls)
  {
    hide Text, NameList, CellIndex;
    NoneAbsent(NameList(item, SgaclNames), sgacls);
  }

  // When of every group and SGACL that is sent one create of its name lands, every
  // cell pre-flight cleared is sent: a second of the same name may be refused, or
  // answered as a duplicate.
  lemma ClearedCellsAreSent(st: Store, asked: nat, answers: nat -> Answer, items: seq<Object>, i: nat)
    requires Valid(st) && i < |Preflight(st, items)|
    requires Preflight(st, items)[i].action == Create && IsCell(Preflight(st, items)[i])
    requires PrerequisitesLanded(Preflight(st, items), Apply(Start(st, asked), answers, true, Preflight(st, items)).log)
    ensures var log := Apply(Start(st, asked), answers, true, Preflight(st, items)).log;
            i < |log| && log[i].Sent?
  {
    hide Preflight, Apply, PrerequisitesLanded, NamesKnown, CellVerdict, WillExistSgts, WillExistSgacls, KnownSgts,
         KnownSgacls, OfKind, Valid;
    var report := Preflight(st, items);
    var log := Apply(Start(st, asked), answers, true, report).log;
    CellSentExactly(st, asked, answers, items, i);
    CountedOnIsKnown(st, items, log);
    VerdictAt(st, items, i);
    ClearedCellNamesKnown(report[i].obj, WillExistSgts(st, items), WillExistSgacls(st, items), st,
                          KnownSgts(st, report, log), KnownSgacls(st, report, log));
  }

  lemma {:induction false} NeverHalts(st: Store, asked: nat, answers: nat -> Answer, report: seq<Verdict>)
    ensures !Apply(Start(st, asked), answers, true, report).halted
  {
    if report != [] { NeverHalts(st, asked, answers, report[..|report| - 1]); }
  }

  // --- a landed cell is its own source -----------------------------------------

  lemma StepLandsCell(s: Run, answers: nat -> Answer, readable: bool, it: Verdict) returns (cell: Object)
    requires Sound(s)
    requires IsCell(it)
    requires var t := Step(s, answers, readable, it);
             |t.log| == |s.log| + 1 && HasLanded(t.log[|s.log|])
    ensures var t := Step(s, answers, readable, it).store;
            cell in t.cells && Says(t, cell, it.obj)
  {
    hide Step, Meaning, Carried, SentFor, NamesSgacls;
    var t := Step(s, answers, readable, it);
    var o := t.log[|s.log|];
    StepSends(s, answers, readable, it);
    StepCellMeans(s, answers, readable, it);
    cell := Stored(o.body, answers(s.asked).id);
    CellStored(s.store, o.body, answers(s.asked));
  }

  lemma {:induction false} LandedBody(st: Store, asked: nat, answers: nat -> Answer, readable: bool,
                                      report: seq<Verdict>, i: nat) returns (cell: Object)
    requires Valid(st) && i < |report| && IsCell(report[i])
    requires |Apply(Start(st, asked), answers, readable, report).log| == |report|
    requires HasLanded(Apply(Start(st, asked), answers, readable, report).log[i])
    ensures var f := Apply(Start(st, asked), answers, readable, report).store;
            cell in f.cells && Says(f, cell, report[i].obj)
  {
    hide Step;
    var n := |report| - 1;
    var s := Apply(Start(st, asked), answers, readable, report[..n]);
    ApplyGrows(st, asked, answers, readable, report[..n]);
    StepGrows(s, answers, readable, report[n]);
    if i < n {
      cell := LandedBody(st, asked, answers, readable, report[..n], i);
      MeaningGrows(s.store, Step(s, answers, readable, report[n]).store, cell);
    } else {
      cell := StepLandsCell(s, answers, readable, report[n]);
    }
  }

  // The drift of a cell against its own source: none, if it names its SGACLs.
  function OwnDrift(item: Object): CellDiff { CellDiff(false, false, !NamesSgacls(item)) }

  // After the run, the target holds for every landed cell one that governs the
  // same pair and shows no drift against the bundle's, if that names its SGACLs.
  lemma LandedCellHasNoDrift(st: Store, asked: nat, answers: nat -> Answer, readable: bool, report: seq<Verdict>,
                             i: nat) returns (cell: Object)
    requires Valid(st) && i < |report| && IsCell(report[i])
    requires |Apply(Start(st, asked), answers, readable, report).log| == |report|
    requires HasLanded(Apply(Start(st, asked), answers, readable, report).log[i])
    ensures var f := Apply(Start(st, asked), answers, readable, report).store;
            && cell in f.cells
            && CellKeyOf(f, cell) == CellKey(Text(report[i].obj, SourceSgtName), Text(report[i].obj,
                DestinationSgtName))
            && CellDrift(f, report[i].obj, cell) == OwnDrift(report[i].obj)
  {
    cell := LandedBody(st, asked, answers, readable, report, i);
  }

  // Where the target's cells come from: each one added says what some landed item
  // carries.
  ghost predicate FromItem(f: Store, cell: Object, report: seq<Verdict>, log: seq<Outcome>) {
    exists j :: 0 <= j < |report| && j < |log| && Landing(f, cell, report[j], log[j])
  }

  ghost predicate Landing(f: Store, cell: Object, it: Verdict, o: Outcome) {
    IsCell(it) && HasLanded(o) && Says(f, cell, it.obj)
  }

  ghost predicate CellsFromItems(st: Store, f: Store, report: seq<Verdict>, log: seq<Outcome>) {
    st.cells <= f.cells && forall c :: c in f.cells[|st.cells|..] ==> FromItem(f, c, report, log)
  }

  lemma StepAddsCell(s: Run, answers: nat -> Answer, readable: bool, it: Verdict)
    requires Sound(s)
    ensures var t := Step(s, answers, readable, it);
            && |t.log| == |s.log| + 1
            && (t.store.cells == s.store.cells
                || exists c :: t.store.cells == s.store.cells + [c] && Landing(t.store, c, it, t.log[|s.log|]))
  {
    hide Step, Meaning, Carried, NamesSgacls, TablesHold, Valid, Text, Unused, ResolvedBody, RefsPresent;
    StepSends(s, answers, readable, it);
    var t := Step(s, answers, readable, it);
    var o := t.log[|s.log|];
    if HasLanded(o) && o.where == Cells {
      var c := Stored(o.body, answers(s.asked).id);
      StepCellMeans(s, answers, readable, it);
      CellStored(s.store, o.body, answers(s.asked));
      assert t.store.cells == s.store.cells + [c] && Landing(t.store, c, it, o);
    }
  }

  lemma FromItemNext(a: Store, b: Store, cell: Object, report: seq<Verdict>, log: seq<Outcome>, n: nat)
    requires n <= |report| && n <= |log| && FromItem(a, cell, report[..n], log[..n]) && Grown(a, b) && cell in a.cells
    ensures FromItem(b, cell, report, log)
  {
    hide Grown, Meaning, Carried, NamesSgacls;
    MeaningGrows(a, b, cell);
    var j :| 0 <= j < n && Landing(a, cell, report[..n][j], log[..n][j]);
    assert Landing(b, cell, report[j], log[j]);
  }

  lemma {:induction false} CellProvenance(st: Store, asked: nat, answers: nat -> Answer, readable: bool,
                                          report: seq<Verdict>)
    requires Valid(st)
    ensures var f := Apply(Start(st, asked), answers, readable, report);
            CellsFromItems(st, f.store, report, f.log)
  {
    hide Step, Sound, Grown, FromItem, Landing, NamesSgacls, IsCell;
    if report != [] {
      var n := |report| - 1;
      var s := Apply(Start(st, asked), answers, readable, report[..n]);
      var f := Apply(Start(st, asked), answers, readable, report);
      CellProvenance(st, asked, answers, readable, report[..n]);
      ApplyGrows(st, asked, answers, readable, report[..n]);
      LogOfPrefix(st, asked, answers, readable, report, n);
      StepAddsCell(s, answers, readable, report[n]);
      StepGrows(s, answers, readable, report[n]);
      forall c | c in f.store.cells[|st.cells|..]
        ensures FromItem(f.store, c, report, f.log)
      {
        if c in s.store.cells[|st.cells|..] {
          FromItemNext(s.store, f.store, c, report, f.log, n);
        } else {
          LastLanding(f.store, c, report, f.log);
        }
      }
    }
  }

  lemma LastLanding(f: Store, cell: Object, report: seq<Verdict>, log: seq<Outcome>)
    requires |report| == |log| > 0 && Landing(f, cell, report[|report| - 1], log[|log| - 1])
    ensures FromItem(f, cell, report, log)
  {
    hide Landing;
  }

  lemma {:induction false} IndexedCell(st: Store, cells: seq<Object>, key: string)
    requires key in CellIndex(st, cells)
    ensures CellIndex(st, cells)[key] in cells && CellKeyOf(st, CellIndex(st, cells)[key]) == key
  {
    hide CellKeyOf;
    var n := |cells| - 1;
    if CellKeyOf(st, cells[n]) != key { IndexedCell(st, cells[..n], key); }
  }

  function PairOf(cell: Object): string { CellKey(Text(cell, SourceSgtName), Text(cell, DestinationSgtName)) }

  // No two cells of the bundle govern one pair.
  ghost predicate DistinctPairs(cells: seq<Object>) {
    forall i, j :: 0 <= i < j < |cells| ==> PairOf(cells[i]) != PairOf(cells[j])
  }

  // The cell the index keeps for the pair of a landed cell is that cell's own copy.
  lemma IndexKeepsLanded(st: Store, asked: nat, answers: nat -> Answer, items: seq<Object>, i: nat)
    requires Valid(st) && DistinctPairs(OfKind(KIND_CELL, items))
    ensures var report := Preflight(st, items);
            var f := Apply(Start(st, asked), answers, true, report);
            CellLanded(report, f.log, i) && PairOf(report[i].obj) !in CellIndex(st, st.cells) ==>
              && PairOf(report[i].obj) in CellIndex(f.store, f.store.cells)
              && Says(f.store, CellIndex(f.store, f.store.cells)[PairOf(report[i].obj)], report[i].obj)
  {
    var report := Preflight(st, items);
    var f := Apply(Start(st, asked), answers, true, report);
    if CellLanded(report, f.log, i) && PairOf(report[i].obj) !in CellIndex(st, st.cells) {
      IndexKeepsThis(st, asked, answers, items, report, f, i);
    }
  }

  // Entry i is for a cell, which landed.
  ghost predicate CellLanded(report: seq<Verdict>, log: seq<Outcome>, i: nat) {
    i < |report| == |log| && IsCell(report[i]) && HasLanded(log[i])
  }

  lemma IndexKeepsThis(st: Store, asked: nat, answers: nat -> Answer, items: seq<Object>, report: seq<Verdict>,
                       f: Run, i: nat)
    requires Valid(st) && report == Preflight(st, items) && f == Apply(Start(st, asked), answers, true, report)
    requires CellLanded(report, f.log, i)
    requires DistinctPairs(OfKind(KIND_CELL, items)) && PairOf(report[i].obj) !in CellIndex(st, st.cells)
    ensures PairOf(report[i].obj) in CellIndex(f.store, f.store.cells)
    ensures Says(f.store, CellIndex(f.store, f.store.cells)[PairOf(report[i].obj)], report[i].obj)
  {
    hide Preflight, Apply, Sound, CellIndex, Landing, Says, NamesSgacls, OfKind, Valid, Meaning, Carried, CellKeyOf,
         Text, HasLanded, Grown;
    var cells := OfKind(KIND_CELL, items);
    var base := CellsFrom(items);
    forall j | 0 <= j < |report| && IsCell(report[j])
      ensures base <= j < base + |cells| && report[j].obj == cells[j - base]
    {
      VerdictAt(st, items, j);
    }
    ApplyGrows(st, asked, answers, true, report);
    CellProvenance(st, asked, answers, true, report);
    var key := PairOf(report[i].obj);
    var own := LandedCellHasNoDrift(st, asked, answers, true, report, i);
    CellIndexKeys(f.store, f.store.cells, key);
    IndexedCell(f.store, f.store.cells, key);
    var c := CellIndex(f.store, f.store.cells)[key];
    if c in st.cells {
      MeaningGrows(st, f.store, c);
      CellIndexKeys(st, st.cells, key);
    } else {
      AddedLater(st.cells, f.store.cells, c);
      var j :| 0 <= j < |report| && j < |f.log| && Landing(f.store, c, report[j], f.log[j]);
      LandingPair(f.store, c, report[j], f.log[j]);
    }
  }

  lemma AddedLater(before: seq<Object>, after: seq<Object>, c: Object)
    requires before <= after && c in after && c !in before
    ensures c in after[|before|..]
  {
    var i :| 0 <= i < |after| && after[i] == c;
    assert i >= |before| && after[|before|..][i - |before|] == c;
  }

  lemma LandingPair(f: Store, c: Object, it: Verdict, o: Outcome)
    requires Landing(f, c, it, o)
    ensures IsCell(it) && Says(f, c, it.obj) && CellKeyOf(f, c) == PairOf(it.obj)
  {
    hide Text, NameList, RuleOf, SgaclNamesOf, Resolve;
  }

  // On the next pre-flight a landed cell of a bundle with distinct pairs is skipped,
  // and its drift list is empty exactly when it names its SGACLs.
  lemma LandedCellIsSkippedAsIs(st: Store, asked: nat, answers: nat -> Answer, items: seq<Object>)
    requires Valid(st) && DistinctPairs(OfKind(KIND_CELL, items))
    ensures var report := Preflight(st, items);
            var f := Apply(Start(st, asked), answers, true, report);
            var again := Preflight(f.store, items);
            && |again| == |report|
            && forall i: nat :: CellLanded(report, f.log, i) ==>
                 again[i].action == Skip && again[i].reason == PairTaken(OwnDrift(report[i].obj))
  {
    hide Preflight, Apply, Valid, DistinctPairs;
    var report := Preflight(st, items);
    var f := Apply(Start(st, asked), answers, true, report);
    PreflightLength(st, items);
    PreflightLength(f.store, items);
    forall i: nat | CellLanded(report, f.log, i)
      ensures Preflight(f.store, items)[i].action == Skip
      ensures Preflight(f.store, items)[i].reason == PairTaken(OwnDrift(report[i].obj))
    {
      SkippedNext(st, asked, answers, items, report, f, i);
    }
  }

  lemma SkippedNext(st: Store, asked: nat, answers: nat -> Answer, items: seq<Object>, report: seq<Verdict>, f: Run,
                    i: nat)
    requires Valid(st) && DistinctPairs(OfKind(KIND_CELL, items))
    requires report == Preflight(st, items) && f == Apply(Start(st, asked), answers, true, report)
    requires CellLanded(report, f.log, i) && |Preflight(f.store, items)| == |report|
    ensures Preflight(f.store, items)[i].action == Skip
    ensures Preflight(f.store, items)[i].reason == PairTaken(OwnDrift(report[i].obj))
  {
    hide Preflight, Apply, Sound, CellIndex, OfKind, Valid, Grown, SentFor, WillExistSgts, WillExistSgacls,
         KnownSgts, KnownSgacls, CellVerdict, NamesKnown, DistinctPairs, Meaning, Carried, Text;
    VerdictAt(st, items, i);
    VerdictAt(f.store, items, i);
    LandedWasCleared(st, asked, answers, true, report, i);
    CellSentExactly(st, asked, answers, items, i);
    NamesAfter(st, asked, answers, true, report);
    ClearedPairIsFree(st, WillExistSgts(st, items), WillExistSgacls(st, items), report[i].obj);
    IndexKeepsLanded(st, asked, answers, items, i);
    ListedExist(f.store, items);
    SkippedAsIs(f.store, WillExistSgts(f.store, items), WillExistSgacls(f.store, items), report[i].obj,
                KnownSgts(st, report, f.log), KnownSgacls(st, report, f.log));
  }

  lemma PreflightLength(st: Store, items: seq<Object>)
    ensures |Preflight(st, items)| == CellsFrom(items) + |OfKind(KIND_CELL, items)|
  {
    hide OfKind, WillExistSgts, WillExistSgacls;
  }

  lemma ListedExist(st: Store, items: seq<Object>)
    ensures NamesIn(st.sgts) <= WillExistSgts(st, items) && NamesIn(st.sgacls) <= WillExistSgacls(st, items)
  {
    hide NamesIn, SgtVerdicts, SgaclVerdicts, OfKind;
  }

  lemma {:induction false} LandedWasCleared(st: Store, asked: nat, answers: nat -> Answer, readable: bool,
                                            report: seq<Verdict>, i: nat)
    requires Valid(st) && i < |report|
    requires |Apply(Start(st, asked), answers, readable, report).log| == |report|
    requires HasLanded(Apply(Start(st, asked), answers, readable, report).log[i])
    ensures report[i].action == Create
  {
    hide Step, Sound, Grown, Valid;
    var n := |report| - 1;
    var s := Apply(Start(st, asked), answers, readable, report[..n]);
    ApplyGrows(st, asked, answers, readable, report[..n]);
    LogOfPrefix(st, asked, answers, readable, report, n);
    if i < n {
      LandedWasCleared(st, asked, answers, readable, report[..n], i);
    } else {
      StepSends(s, answers, readable, report[n]);
    }
  }

  // What a cleared cell says of the target it was cleared against.
  lemma ClearedPairIsFree(st: Store, groups: set<string>, sgacls: set<string>, item: Object)
    requires CellVerdict(st, groups, sgacls, item).action == Create
    ensures Named(item) && PairOf(item) !in CellIndex(st, st.cells)
  {
    hide Text, CellIndex;
  }

  // It names both its groups, and is not the default cell.
  predicate Named(item: Object) {
    && Text(item, SourceSgtName) != "" && Text(item, DestinationSgtName) != ""
    && !(Text(item, SourceSgtName) == ANY && Text(item, DestinationSgtName) == ANY)
  }

  lemma SkippedAsIs(f: Store, groups: set<string>, sgacls: set<string>, item: Object, known: set<string>,
                    knownAcls: set<string>)
    requires Named(item) && NamesKnown(item, known, knownAcls) && known <= groups && knownAcls <= sgacls
    requires PairOf(item) in CellIndex(f, f.cells) && Says(f, CellIndex(f, f.cells)[PairOf(item)], item)
    ensures CellVerdict(f, groups, sgacls, item).action == Skip
    ensures CellVerdict(f, groups, sgacls, item).reason == PairTaken(OwnDrift(item))
  {
    hide Text, NameList, CellIndex, RuleOf, SgaclNamesOf;
    NoneAbsent(NameList(item, SgaclNames), sgacls);
  }
}
