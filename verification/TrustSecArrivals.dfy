// What arrives with a group, an SGACL or a cell beside the names it refers to:
// everything the bundle has of it; and what of it the bundle has.
module TrustSecArrivals {
  import opened Objects
  import opened Report
  import opened TrustSecStore
  import opened TrustSec
  import opened TrustSecGrowth
  import opened TrustSecTheorems
  import opened TrustSecCells

  // The properties of a cell that refer to other objects.
  const REFERENCES := {SourceSgtId, DestinationSgtId, Sgacls, SourceSgtName, DestinationSgtName, SgaclNames}

  function Aside(kind: string): set<Key> { {Kind, Id} + if kind == KIND_CELL then REFERENCES else {} }

  // The target's object has each property of the bundle's that is not null, and no
  // other, its own id and the references aside.
  ghost predicate Carries(o: Object, item: Object) {
    forall k :: k !in Aside(Text(item, Kind)) ==>
      && (k in o <==> k in item && item[k] != Null)
      && (k in o ==> o[k] == WithoutNulls(item[k]))
  }

  function Collected(st: Store, kind: string): seq<Object> {
    if kind == KIND_SGT then st.sgts else if kind == KIND_SGACL then st.sgacls else st.cells
  }

  lemma PlainCarries(item: Object, id: string)
    ensures forall k :: k !in {Kind, Id} ==>
              var o := Stored(Compact(item - {Kind}), id);
              && (k in o <==> k in item && item[k] != Null)
              && (k in o ==> o[k] == WithoutNulls(item[k]))
  {
    hide WithoutNulls;
  }

  lemma CellCarries(item: Object, ids: Ids, id: string)
    requires MissingRef(item - {Kind}, ids).None?
    ensures forall k :: k !in {Kind, Id} + REFERENCES ==>
              var o := Stored(Compact(Resolved(item - {Kind}, ids)), id);
              && (k in o <==> k in item && item[k] != Null)
              && (k in o ==> o[k] == WithoutNulls(item[k]))
  {
    hide WithoutNulls, Text, NameList, FirstAbsent;
    var r := Resolved(item - {Kind}, ids);
    assert forall k :: k !in {Kind} + REFERENCES ==> (k in r <==> k in item) && (k in r ==> r[k] == item[k]);
  }

  lemma BodyCarries(it: Verdict, o: Outcome, id: string)
    requires o.Sent? && SentFor(it, o)
    ensures Carries(Stored(o.body, id), it.obj)
  {
    hide Compact, Stored, Resolved, MissingRef, TablesHold, Valid, WithoutNulls;
    if KindOf(it.obj) == KIND_CELL {
      var ids :| TablesHold(o.before, ids) && MissingRef(it.obj - {Kind}, ids).None?
                 && o.body == Compact(Resolved(it.obj - {Kind}, ids));
      CellCarries(it.obj, ids, id);
    } else {
      PlainCarries(it.obj, id);
    }
  }

  lemma StepStores(s: Run, answers: nat -> Answer, readable: bool, it: Verdict) returns (o: Object)
    requires Sound(s)
    requires var t := Step(s, answers, readable, it);
             |t.log| == |s.log| + 1 && HasLanded(t.log[|s.log|])
    ensures o in Collected(Step(s, answers, readable, it).store, Text(it.obj, Kind)) && Carries(o, it.obj)
  {
    hide Step, Unused, Carries, Stored, ResolvedBody, Text, Valid, TablesHold;
    StepSends(s, answers, readable, it);
    var out := Step(s, answers, readable, it).log[|s.log|];
    o := Stored(out.body, answers(s.asked).id);
    BodyCarries(it, out, answers(s.asked).id);
  }

  // Whatever landed, the target holds, when the run is over, an object of that kind
  // with every property the bundle's has.
  lemma {:induction false} LandedWhole(st: Store, asked: nat, answers: nat -> Answer, readable: bool,
                                       report: seq<Verdict>, i: nat) returns (o: Object)
    requires Valid(st) && i < |report|
    requires |Apply(Start(st, asked), answers, readable, report).log| == |report|
    requires HasLanded(Apply(Start(st, asked), answers, readable, report).log[i])
    ensures o in Collected(Apply(Start(st, asked), answers, readable, report).store, Text(report[i].obj, Kind))
    ensures Carries(o, report[i].obj)
  {
    hide Step, Carries, NewIds, Text, Valid;
    var n := |report| - 1;
    var s := Apply(Start(st, asked), answers, readable, report[..n]);
    ApplyGrows(st, asked, answers, readable, report[..n]);
    LogOfPrefix(st, asked, answers, readable, report, n);
    StepGrows(s, answers, readable, report[n]);
    if i < n {
      o := LandedWhole(st, asked, answers, readable, report[..n], i);
    } else {
      o := StepStores(s, answers, readable, report[n]);
    }
  }

  // --- export -----------------------------------------------------------------------

  // What never travels: what only means something where it was read.
  const LOCAL := {Id, Link, GenerationId, MatrixId}

  // The bundle has of a group or an SGACL every property but those, without links,
  // and its kind.
  lemma ExportIs(o: Object, kind: string, k: Key)
    ensures var out := ExportObject(o, kind);
            if k == Kind then k in out && out[k] == Str(kind)
            else
              && (k in out <==> k in o && k !in LOCAL)
              && (k in out ==> out[k] == WithoutLinks(o[k]))
  {
  }

  // The references aside, the same.
  ghost predicate Beside(a: Object, b: Object) {
    forall k :: k !in REFERENCES ==> (k in a <==> k in b) && (k in b ==> a[k] == b[k])
  }

  lemma NamedRefTouches(cell: Object, from: Key, to: Key, name: string)
    requires from in REFERENCES && to in REFERENCES
    ensures Beside(NamedRef(cell, from, to, name), cell)
  {
    hide Text;
  }

  lemma NamedSgaclsTouches(st: Store, cell: Object)
    ensures Beside(NamedSgacls(st, cell), cell)
  {
    hide Text, NameList, SgaclNamesOf, AsList;
  }

  // And of a cell, beside its references.
  lemma ExportCellIs(st: Store, cell: Object, k: Key)
    requires k !in REFERENCES
    ensures var out := ExportCell(st, cell);
            if k == Kind then k in out && out[k] == Str(KIND_CELL)
            else
              && (k in out <==> k in cell && k !in LOCAL)
              && (k in out ==> out[k] == WithoutLinks(cell[k]))
  {
    hide NamedRef, NamedSgacls, Text, SgtName;
    var c0 := cell[Kind := Str(KIND_CELL)];
    var c1 := NamedRef(c0, SourceSgtId, SourceSgtName, SgtName(st, Text(c0, SourceSgtId)));
    var c2 := NamedRef(c1, DestinationSgtId, DestinationSgtName, SgtName(st, Text(c1, DestinationSgtId)));
    var c3 := NamedSgacls(st, c2);
    NamedRefTouches(c0, SourceSgtId, SourceSgtName, SgtName(st, Text(c0, SourceSgtId)));
    NamedRefTouches(c1, DestinationSgtId, DestinationSgtName, SgtName(st, Text(c1, DestinationSgtId)));
    NamedSgaclsTouches(st, c2);
    PortableAt(c3, k);
  }

  lemma PortableAt(o: Object, k: Key)
    ensures k in Portable(o) <==> k in o && k !in LOCAL
    ensures k in Portable(o) ==> Portable(o)[k] == WithoutLinks(o[k])
  {
    hide WithoutLinks;
  }
}
