// Network device groups: the ancestors a hierarchical name needs, and the order
// in which a bundle's groups are reported and created, whatever order the map of
// selected groups is walked in.
module DeviceGroups {
  import opened Objects
  import opened Report
  import opened Segments
  import Drift

  // --- hierarchical names -----------------------------------------------------------

  // The groups a name depends on, topmost first. The first segment is the type of
  // the group, not a group.
  function Ancestors(name: string): seq<string> {
    var parts := Split(name, '#');
    if |parts| <= 2 then []
    else seq(|parts| - 2, i requires 0 <= i < |parts| - 2 => Join(parts[..i + 2], '#'))
  }

  // A group stands above another: it is a group, not only a type, and the other's
  // name goes on from it.
  predicate Above(a: string, name: string) { '#' in a && a + "#" <= name }

  // The groups a name depends on are those above it, each longer than the one before.
  lemma AncestorsAre(name: string)
    ensures forall a :: a in Ancestors(name) <==> Above(a, name)
    ensures forall i, j :: 0 <= i < j < |Ancestors(name)| ==> |Ancestors(name)[i]| < |Ancestors(name)[j]|
  {
    var parts := Split(name, '#');
    JoinSplit(name, '#');
    forall i | 0 <= i < |Ancestors(name)|
      ensures Above(Ancestors(name)[i], name)
    {
      AncestorAt(name, i);
    }
    forall a | Above(a, name)
      ensures a in Ancestors(name)
    {
      AboveIsAncestor(a, name);
    }
    forall i, j | 0 <= i < j < |Ancestors(name)|
      ensures |Ancestors(name)[i]| < |Ancestors(name)[j]|
    {
      JoinAt(parts[..j + 2], i + 2, '#');
      assert parts[..j + 2][..i + 2] == parts[..i + 2];
    }
  }

  lemma AncestorAt(name: string, i: nat)
    requires i < |Ancestors(name)|
    ensures Above(Ancestors(name)[i], name)
  {
    var parts := Split(name, '#');
    var a := Ancestors(name)[i];
    JoinSplit(name, '#');
    JoinAt(parts, i + 2, '#');
    SplitIsPlain(name, '#');
    SplitJoin(parts[..i + 2], '#');
    SeveralParts(a, '#');
  }

  lemma AboveIsAncestor(a: string, name: string)
    requires Above(a, name)
    ensures a in Ancestors(name)
  {
    var rest := name[|a| + 1..];
    assert name == a + ['#'] + rest;
    SplitAt(a, rest, '#');
    SeveralParts(a, '#');
    JoinSplit(a, '#');
    var parts, k := Split(name, '#'), |Split(a, '#')|;
    assert parts[..k] == Split(a, '#');
    assert Ancestors(name)[k - 2] == a;
  }

  // The ancestors of an ancestor are the ancestors above it.
  lemma AncestorsNest(name: string, j: nat)
    requires j < |Ancestors(name)|
    ensures Ancestors(Ancestors(name)[j]) == Ancestors(name)[..j]
  {
    var parts := Split(name, '#');
    SplitIsPlain(name, '#');
    SplitJoin(parts[..j + 2], '#');
    var above := Ancestors(Ancestors(name)[j]);
    forall i | 0 <= i < |above|
      ensures above[i] == Ancestors(name)[i]
    {
      assert parts[..j + 2][..i + 2] == parts[..i + 2];
    }
  }

  // --- pre-flight ---------------------------------------------------------------------

  datatype Why = Clear | Needed | Nameless | Exists(drift: set<Key>)

  type Verdict = Item<Why>

  const GROUP_TYPE := Other("othername")

  // The target's groups, by name.
  type Groups = map<string, Object>

  // A group that is there only because another needs it: its name, and its type,
  // the first segment of the name.
  function Pulled(name: string): Verdict {
    Item(name, Create, Needed, map[Name := Str(name), Kind := Str(GROUP), GROUP_TYPE := Str(Split(name, '#')[0])])
  }

  const GROUP := "networkDeviceGroup"

  // A group pulled in is of the type its name begins with.
  lemma PulledIs(name: string)
    requires '#' in name
    ensures var o := Pulled(name).obj;
            && Text(o, Name) == name && Text(o, Kind) == GROUP && o.Keys == {Name, Kind, GROUP_TYPE}
            && '#' !in Text(o, GROUP_TYPE) && Text(o, GROUP_TYPE) + "#" <= name
  {
    var parts := Split(name, '#');
    SeveralParts(name, '#');
    JoinSplit(name, '#');
    SplitIsPlain(name, '#');
    JoinAt(parts, 1, '#');
    assert parts[..1] == [parts[0]];
  }

  // The verdict on a group of the bundle itself. Where the target's groups could be
  // listed but not read, no difference is reported.
  function Own(item: Object, target: Groups, readable: bool): Verdict {
    var name := Text(item, Name);
    if name == "" then Item(name, Blocked, Nameless, item)
    else if name in target then
      Item(name, Skip, Exists(if readable then Drift.Drifted(item, target[name]) else {}), item)
    else Item(name, Create, Clear, item)
  }

  function ItemNames(items: seq<Object>): seq<string> {
    seq(|items|, i requires 0 <= i < |items| => Text(items[i], Name))
  }

  // A group marked create has every ancestor on the target or marked create
  // before it.
  ghost predicate Ordered(report: seq<Verdict>, target: set<string>) {
    forall i :: 0 <= i < |report| ==> CoveredAt(report, target, i)
  }

  ghost predicate CoveredAt(report: seq<Verdict>, target: set<string>, i: nat)
    requires i < |report|
  {
    report[i].action == Create ==> AllCovered(report[..i], target, report[i].name)
  }

  ghost predicate AllCovered(report: seq<Verdict>, target: set<string>, name: string) {
    forall a :: Above(a, name) ==> Covered(report, target, a)
  }

  ghost predicate Covered(report: seq<Verdict>, target: set<string>, a: string) {
    a in target || exists j :: 0 <= j < |report| && report[j].name == a && report[j].action == Create
  }

  ghost predicate NoRepeats(report: seq<Verdict>) {
    forall i, j :: 0 <= i < j < |report| ==> report[i].name != report[j].name
  }

  function NamesOf(report: seq<Verdict>): set<string> { set v | v in report :: v.name }

  lemma CoveredLater(report: seq<Verdict>, more: seq<Verdict>, target: set<string>, a: string)
    requires Covered(report, target, a)
    ensures Covered(report + more, target, a)
  {
    if a !in target {
      var j :| 0 <= j < |report| && report[j].name == a && report[j].action == Create;
      assert (report + more)[j] == report[j];
    }
  }

  lemma OrderedNext(report: seq<Verdict>, v: Verdict, target: set<string>)
    requires Ordered(report, target)
    requires v.action == Create ==> AllCovered(report, target, v.name)
    ensures Ordered(report + [v], target)
  {
    hide AllCovered;
    var more := report + [v];
    forall i | 0 <= i < |more|
      ensures CoveredAt(more, target, i)
    {
      if i < |report| {
        assert CoveredAt(report, target, i);
        assert more[..i] == report[..i];
        assert more[i] == report[i];
      } else {
        assert more[..i] == report;
      }
    }
  }

  // What the pass over the selected groups keeps: it reports only groups pulled
  // in, none twice and none the target has, and counts on exactly those.
  ghost predicate PulledSoFar(report: seq<Verdict>, will: set<string>, target: set<string>) {
    && will == target + NamesOf(report)
    && NoRepeats(report) && NamesOf(report) !! target
    && (forall v :: v in report ==> v == Pulled(v.name))
    && Ordered(report, target)
  }

  lemma WillIsCovered(report: seq<Verdict>, will: set<string>, target: set<string>, a: string)
    requires PulledSoFar(report, will, target) && a in will
    ensures Covered(report, target, a)
  {
    if a !in target {
      var v :| v in report && v.name == a;
      var j :| 0 <= j < |report| && report[j] == v;
    }
  }

  lemma PullOne(report: seq<Verdict>, will: set<string>, target: set<string>, a: string)
    requires PulledSoFar(report, will, target) && a !in will
    requires forall b :: Above(b, a) ==> b in will
    ensures PulledSoFar(report + [Pulled(a)], will + {a}, target)
  {
    hide Above, Covered, Ordered;
    assert Pulled(a).name == a;
    forall b | Above(b, a)
      ensures Covered(report, target, b)
    {
      WillIsCovered(report, will, target, b);
    }
    OrderedNext(report, Pulled(a), target);
    assert NamesOf(report + [Pulled(a)]) == NamesOf(report) + {a};
    assert forall i :: 0 <= i < |report| ==> report[i] in report;
  }

  // The ancestors one selected group still needs, topmost first.
  method PullAncestors(name: string, target: set<string>, report0: seq<Verdict>, will0: set<string>)
    returns (report: seq<Verdict>, will: set<string>)
    requires PulledSoFar(report0, will0, target)
    ensures PulledSoFar(report, will, target) && will0 <= will
    ensures forall a :: Above(a, name) ==> a in will
    ensures forall a :: a in will ==> a in will0 || Above(a, name)
  {
    hide PulledSoFar, Ancestors, Above;
    report, will := report0, will0;
    var ancestors := Ancestors(name);
    AncestorsAre(name);
    for i := 0 to |ancestors|
      invariant PulledSoFar(report, will, target) && will0 <= will
      invariant forall j :: 0 <= j < i ==> ancestors[j] in will
      invariant forall a :: a in will ==> a in will0 || Above(a, name)
    {
      var a := ancestors[i];
      assert a in ancestors;
      if a !in target && a !in will {
        AncestorsNest(name, i);
        AncestorsAre(a);
        PullOne(report, will, target, a);
        will := will + {a};
        report := report + [Pulled(a)];
      } else {
        TargetWill(report, will, target);
      }
    }
  }

  lemma TargetWill(report: seq<Verdict>, will: set<string>, target: set<string>)
    requires PulledSoFar(report, will, target)
    ensures target <= will
  {
  }

  // The whole pass: `order` is the order in which the map of the bundle's groups
  // happens to be walked, `items` the groups in bundle order. The ancestors the
  // groups need come first, then the groups themselves.
  method PreflightGroups(items: seq<Object>, order: seq<string>, target: Groups, readable: bool)
    returns (report: seq<Verdict>)
    requires forall n :: n in order <==> n in ItemNames(items)
    ensures Reported(report, items, target, readable)
  {
    hide Above, PulledSoFar, Ordered, Pulled, Own;
    report := [];
    var will := target.Keys;
    assert PulledSoFar(report, will, target.Keys) by { StartPulling(target.Keys); }
    for i := 0 to |order|
      invariant PulledSoFar(report, will, target.Keys) && target.Keys <= will
      invariant forall j, a :: 0 <= j < i && Above(a, order[j]) ==> a in will
      invariant forall a :: a in will && a !in target ==> exists j :: 0 <= j < i && Above(a, order[j])
    {
      report, will := PullAncestors(order[i], target.Keys, report, will);
    }
    ghost var pulled := |report|;
    ghost var first := report;
    NeededPulled(ItemNames(items), order, will, target.Keys);
    PulledNames(first, will, target.Keys);
    for i := 0 to |items|
      invariant pulled <= |report| && report[..pulled] == first
      invariant report[pulled..] == seq(i, j requires 0 <= j < i => Own(items[j], target, readable))
      invariant Ordered(report, target.Keys)
    {
      var name := Text(items[i], Name);
      OwnName(items[i], target, readable);
      forall a | Above(a, name)
        ensures Covered(report, target.Keys, a)
      {
        assert ItemNames(items)[i] == name && name in ItemNames(items);
        var j :| 0 <= j < |order| && order[j] == name;
        WillIsCovered(first, will, target.Keys, a);
        CoveredLater(first, report[pulled..], target.Keys, a);
        assert first + report[pulled..] == report;
      }
      OrderedNext(report, Own(items[i], target, readable), target.Keys);
      report := report + [Own(items[i], target, readable)];
    }
    assert report[..pulled] == first;
  }

  // What the report is, whatever the order: the groups needed and not there, each
  // once, with every group after those above it; then the verdicts on the bundle's
  // own groups.
  ghost predicate Reported(report: seq<Verdict>, items: seq<Object>, target: Groups, readable: bool) {
    && |items| <= |report|
    && var pulled := |report| - |items|;
    && Ordered(report, target.Keys)
    && NoRepeats(report[..pulled])
    && (forall v :: v in report[..pulled] ==> v == Pulled(v.name))
    && NamesOf(report[..pulled]) == NeededBy(ItemNames(items)) - target.Keys
    && report[pulled..] == seq(|items|, i requires 0 <= i < |items| => Own(items[i], target, readable))
  }

  // The verdict on the i-th group of the bundle: cleared if and only if it has a name
  // the target does not; one that is there, with the fields it differs in.
  lemma OwnVerdictIs(report: seq<Verdict>, items: seq<Object>, target: Groups, readable: bool, i: nat)
    requires Reported(report, items, target, readable) && i < |items|
    ensures var v, name := report[|report| - |items| + i], Text(items[i], Name);
            && v.obj == items[i] && v.name == name
            && (v.action == Create <==> name != "" && name !in target)
            && (v.action == Blocked <==> name == "")
            && (name != "" && name in target ==>
                  && v.reason.Exists?
                  && forall k :: k in v.reason.drift <==> readable && k in Drift.Drifted(items[i], target[name]))
  {
    hide Drift.Drifted, Text, Ordered, NeededBy, Pulled;
    assert report[|report| - |items| + i] == report[|report| - |items|..][i];
  }

  lemma OwnName(item: Object, target: Groups, readable: bool)
    ensures Own(item, target, readable).name == Text(item, Name)
  {
  }

  lemma StartPulling(target: set<string>)
    ensures PulledSoFar([], target, target)
  {
  }

  // Everything some group of the bundle needs above it.
  ghost function NeededBy(names: seq<string>): set<string> {
    set n, i | n in names && 0 <= i < |n| && Above(n[..i], n) :: n[..i]
  }

  lemma NeededPulled(names: seq<string>, order: seq<string>, will: set<string>, target: set<string>)
    requires (forall n :: n in order <==> n in names) && target <= will
    requires forall j, a :: 0 <= j < |order| && Above(a, order[j]) ==> a in will
    requires forall a :: a in will && a !in target ==> exists j :: 0 <= j < |order| && Above(a, order[j])
    ensures will - target == NeededBy(names) - target
  {
    NeededIs(names);
    hide Above, NeededBy;
    forall a | a in will - target
      ensures a in NeededBy(names)
    {
      var j :| 0 <= j < |order| && Above(a, order[j]);
      assert order[j] in names;
    }
    forall a | a in NeededBy(names)
      ensures a in will
    {
      var n :| n in names && Above(a, n);
      assert n in order;
      var j :| 0 <= j < |order| && order[j] == n;
    }
  }

  lemma NeededIs(names: seq<string>)
    ensures forall a :: a in NeededBy(names) <==> exists n :: n in names && Above(a, n)
  {
    forall n, a | n in names && Above(a, n)
      ensures a in NeededBy(names)
    {
      assert n[..|a|] == a;
    }
  }

  lemma PulledNames(report: seq<Verdict>, will: set<string>, target: set<string>)
    requires PulledSoFar(report, will, target)
    ensures NamesOf(report) == will - target
    ensures NoRepeats(report) && NamesOf(report) !! target && Ordered(report, target)
    ensures forall v :: v in report ==> v == Pulled(v.name)
  {
  }
}
