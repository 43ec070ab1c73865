// Creating the groups a report clears, on a target that refuses any of them it
// likes: what gets in, what is left without a parent, and whose content it is.
module DeviceGroupRuns {
  import opened Objects
  import opened Report
  import opened Segments
  import opened DeviceGroups
  import Marker

  // What became of one entry of the report. A group is an orphan when the target
  // refuses it for want of one above it.
  datatype Outcome = Counted | Landed | AlreadyThere | Refused(orphan: bool)

  function ReplyTo(have: set<string>, name: string, refuses: bool): Outcome {
    if name in have then AlreadyThere
    else if exists i :: 0 <= i < |name| && Above(name[..i], name) && name[..i] !in have then Refused(true)
    else if refuses then Refused(false)
    else Landed
  }

  // It refuses nothing of its own accord.
  ghost predicate Willing(refuses: nat -> bool) { forall n: nat :: !refuses(n) }

  // A target that holds groups by name, and refuses the n-th create when it likes.
  class GroupTarget {
    var groups: Groups
    var asked: nat
    const refuses: nat -> bool

    constructor (groups: Groups, refuses: nat -> bool)
      ensures this.groups == groups && this.refuses == refuses && asked == 0
    {
      this.groups, this.refuses, asked := groups, refuses, 0;
    }

    method Create(name: string, body: Object) returns (o: Outcome)
      modifies this
      ensures o == ReplyTo(old(groups).Keys, name, refuses(old(asked))) && asked == old(asked) + 1
      ensures groups == if o == Landed then old(groups)[name := body] else old(groups)
    {
      o := ReplyTo(groups.Keys, name, refuses(asked));
      asked := asked + 1;
      if o == Landed { groups := groups[name := body]; }
    }
  }

  // What is sent for a group: its properties, marked.
  function BodyOf(group: Object, day: Marker.Day): Object {
    Compact((group - {Kind})[Description := Str(Marker.Tag(Text(group, Description), day))])
  }

  // The body has every property of the group but its kind and what is null, and its
  // own description marked.
  lemma BodyIs(group: Object, day: Marker.Day, k: Key)
    ensures var body := BodyOf(group, day);
            if k == Description then k in body && body[k] == Str(Marker.Tag(Text(group, Description), day))
            else
              && (k in body <==> k in group && k != Kind && group[k] != Null)
              && (k in body ==> body[k] == WithoutNulls(group[k]))
  {
    hide Marker.Tag;
  }

  datatype Run = Run(groups: Groups, asked: nat, log: seq<Outcome>, tally: Tally)

  function Step(s: Run, refuses: nat -> bool, day: Marker.Day, v: Verdict): Run {
    if v.action == Skip then s.(log := s.log + [Counted], tally := s.tally.(skipped := s.tally.skipped + 1))
    else if v.action == Blocked then s.(log := s.log + [Counted], tally := s.tally.(blocked := s.tally.blocked + 1))
    else
      var o := ReplyTo(s.groups.Keys, v.name, refuses(s.asked));
      Run(if o == Landed then s.groups[v.name := BodyOf(v.obj, day)] else s.groups, s.asked + 1, s.log + [o],
          match o
          case Landed => s.tally.(created := s.tally.created + 1)
          case AlreadyThere => s.tally.(skipped := s.tally.skipped + 1)
          case _ => s.tally.(failed := s.tally.failed + 1))
  }

  function Apply(s: Run, refuses: nat -> bool, day: Marker.Day, report: seq<Verdict>): Run {
    if report == [] then s
    else Step(Apply(s, refuses, day, report[..|report| - 1]), refuses, day, report[|report| - 1])
  }

  function Start(groups: Groups, asked: nat): Run { Run(groups, asked, [], Tally(0, 0, 0, 0)) }

  method ApplyGroups(t: GroupTarget, report: seq<Verdict>, day: Marker.Day, res: ImportResult)
    modifies t, res
    ensures var f := Apply(Start(old(t.groups), old(t.asked)), t.refuses, day, report);
            t.groups == f.groups && t.asked == f.asked && res.View() == Plus(old(res.View()), f.tally)
  {
    hide ReplyTo, BodyOf;
    ghost var start, base := Start(t.groups, t.asked), res.View();
    ghost var s := start;
    for i := 0 to |report|
      invariant s == Apply(start, t.refuses, day, report[..i])
      invariant t.groups == s.groups && t.asked == s.asked && res.View() == Plus(base, s.tally)
    {
      assert report[..i + 1][..i] == report[..i];
      var v := report[i];
      s := Step(s, t.refuses, day, v);
      if v.action != Create {
        if v.action == Skip {
          res.skipped := res.skipped + 1;
        } else {
          res.blocked := res.blocked + 1;
        }
        continue;
      }
      var o := t.Create(v.name, BodyOf(v.obj, day));
      match o {
        case Landed => res.created := res.created + 1;
        case AlreadyThere => res.skipped := res.skipped + 1;
        case _ => res.failed := res.failed + 1;
      }
    }
    assert report[..|report|] == report;
  }

  // --- what is counted ------------------------------------------------------------------

  datatype Counter = AsCreated | AsSkipped | AsBlocked | AsFailed

  function CounterOf(v: Verdict, o: Outcome): Counter {
    match o
    case Landed => AsCreated
    case AlreadyThere => AsSkipped
    case Refused(_) => AsFailed
    case Counted => if v.action == Blocked then AsBlocked else AsSkipped
  }

  function HowMany(report: seq<Verdict>, log: seq<Outcome>, c: Counter): nat {
    if report == [] || log == [] then 0
    else
      HowMany(report[..|report| - 1], log[..|log| - 1], c)
      + if CounterOf(report[|report| - 1], log[|log| - 1]) == c then 1 else 0
  }

  ghost predicate CountedRight(f: Run, report: seq<Verdict>) {
    && |f.log| == |report|
    && (forall i :: 0 <= i < |report| ==> (f.log[i] == Counted <==> report[i].action != Create))
    && f.tally == Tally(HowMany(report, f.log, AsCreated), HowMany(report, f.log, AsSkipped),
                        HowMany(report, f.log, AsBlocked), HowMany(report, f.log, AsFailed))
  }

  lemma OneCounted(m: Run, report: seq<Verdict>, refuses: nat -> bool, day: Marker.Day, v: Verdict)
    requires CountedRight(m, report)
    ensures CountedRight(Step(m, refuses, day, v), report + [v])
  {
    hide ReplyTo, BodyOf;
    var f, more := Step(m, refuses, day, v), report + [v];
    LandedIsNew(m.groups.Keys, v.name, refuses(m.asked));
    assert f.log[..|f.log| - 1] == m.log && more[..|more| - 1] == report;
  }

  // What landed, what was there or skipped, what was blocked, and what the target
  // refused, each in its own counter; only what is cleared is sent.
  lemma {:induction false} RunIsCounted(groups: Groups, asked: nat, refuses: nat -> bool, day: Marker.Day,
                                        report: seq<Verdict>)
    ensures CountedRight(Apply(Start(groups, asked), refuses, day, report), report)
  {
    if report != [] {
      hide Step, CountedRight;
      var n := |report| - 1;
      RunIsCounted(groups, asked, refuses, day, report[..n]);
      OneCounted(Apply(Start(groups, asked), refuses, day, report[..n]), report[..n], refuses, day, report[n]);
      assert report[..n] + [report[n]] == report;
    }
  }

  // --- what a run keeps -----------------------------------------------------------------

  function LandedNames(report: seq<Verdict>, log: seq<Outcome>): set<string> {
    set i | 0 <= i < |report| && i < |log| && log[i] == Landed :: report[i].name
  }

  lemma {:induction false} LogGrows(s: Run, refuses: nat -> bool, day: Marker.Day, report: seq<Verdict>, k: nat)
    requires s.log == [] && k <= |report|
    ensures |Apply(s, refuses, day, report).log| == |report|
    ensures Apply(s, refuses, day, report[..k]).log == Apply(s, refuses, day, report).log[..k]
  {
    hide ReplyTo, BodyOf;
    if k < |report| {
      var n := |report| - 1;
      assert report[..n][..k] == report[..k];
      LogGrows(s, refuses, day, report[..n], k);
    } else {
      assert report[..k] == report;
      if report != [] { LogGrows(s, refuses, day, report[..|report| - 1], 0); }
    }
  }

  // What was on the target stays as it was, and what is added is what landed.
  lemma {:induction false} GroupsAfter(s: Run, refuses: nat -> bool, day: Marker.Day, report: seq<Verdict>)
    requires s.log == []
    ensures var f := Apply(s, refuses, day, report);
            && |f.log| == |report| && f.tally.Total() == s.tally.Total() + |report|
            && f.groups.Keys == s.groups.Keys + LandedNames(report, f.log)
            && forall n :: n in s.groups ==> f.groups[n] == s.groups[n]
  {
    hide ReplyTo, BodyOf, LandedNames;
    if report == [] {
      NoneLanded();
    } else {
      var n := |report| - 1;
      var m, f := Apply(s, refuses, day, report[..n]), Apply(s, refuses, day, report);
      GroupsAfter(s, refuses, day, report[..n]);
      assert report == report[..n] + [report[n]] && f.log == m.log + [f.log[n]];
      LandedNext(report[..n], report[n], m.log, f.log[n]);
      LandedIsNew(m.groups.Keys, report[n].name, refuses(m.asked));
    }
  }

  lemma NoneLanded()
    ensures LandedNames([], []) == {}
  {
  }

  lemma LandedNext(report: seq<Verdict>, v: Verdict, log: seq<Outcome>, o: Outcome)
    requires |report| == |log|
    ensures LandedNames(report + [v], log + [o]) == LandedNames(report, log) + if o == Landed then {v.name} else {}
  {
    var r, l := report + [v], log + [o];
    assert r[|report|] == v && l[|log|] == o;
    forall n | n in LandedNames(report, log)
      ensures n in LandedNames(r, l)
    {
      var i :| 0 <= i < |report| && log[i] == Landed && n == report[i].name;
      assert r[i] == report[i] && l[i] == log[i];
    }
  }

  lemma LandedIsNew(have: set<string>, name: string, refuses: bool)
    ensures var o := ReplyTo(have, name, refuses);
            && (o == Landed ==> name !in have) && (o == AlreadyThere <==> name in have)
            && o != Counted && (o == Refused(false) ==> refuses)
  {
    hide Above;
  }

  // Past entry k, its name is on the target unless it was refused.
  lemma {:induction false} There(s: Run, refuses: nat -> bool, day: Marker.Day, report: seq<Verdict>, k: nat)
    requires s.log == [] && k < |report| == |Apply(s, refuses, day, report).log|
    requires Apply(s, refuses, day, report).log[k] in {Landed, AlreadyThere}
    ensures report[k].name in Apply(s, refuses, day, report).groups
  {
    hide BodyOf, ReplyTo;
    var n := |report| - 1;
    var m := Apply(s, refuses, day, report[..n]);
    LogGrows(s, refuses, day, report, n);
    LandedIsNew(m.groups.Keys, report[n].name, refuses(m.asked));
    if k < n { There(s, refuses, day, report[..n], k); }
  }

  // How entry k was answered: by what the target held when it was sent.
  lemma AnsweredAs(s: Run, refuses: nat -> bool, day: Marker.Day, report: seq<Verdict>, k: nat)
    requires s.log == [] && k < |report| && report[k].action == Create
    ensures |Apply(s, refuses, day, report).log| == |report|
    ensures var m := Apply(s, refuses, day, report[..k]);
            Apply(s, refuses, day, report).log[k] == ReplyTo(m.groups.Keys, report[k].name, refuses(m.asked))
  {
    hide ReplyTo, BodyOf;
    var m, u := Apply(s, refuses, day, report[..k]), Apply(s, refuses, day, report[..k + 1]);
    LogGrows(s, refuses, day, report, k + 1);
    LogGrows(s, refuses, day, report, k);
    LogGrows(s, refuses, day, report[..k], k);
    assert u == Step(m, refuses, day, report[k]) by { assert report[..k + 1][..k] == report[..k]; }
    hide Apply;
    assert u.log[k] == Apply(s, refuses, day, report).log[k];
  }

  // --- orphans ----------------------------------------------------------------------------

  // In a report whose groups come after those above them, a group is left without
  // a parent only where the target itself refused one above it, earlier in the
  // run: the program never asks for a group too soon.
  lemma {:induction false} OrphansTraceToRefusal(groups: Groups, asked: nat, refuses: nat -> bool, day: Marker.Day,
                                                 report: seq<Verdict>, i: nat)
    returns (j: nat)
    requires Ordered(report, groups.Keys) && i < |report| == |Apply(Start(groups, asked), refuses, day, report).log|
    requires Apply(Start(groups, asked), refuses, day, report).log[i] == Refused(true)
    ensures j < i && Above(report[j].name, report[i].name)
    ensures Apply(Start(groups, asked), refuses, day, report).log[j] == Refused(false)
    decreases i
  {
    hide BodyOf, Ordered, LandedNames;
    var s := Start(groups, asked);
    var log := Apply(s, refuses, day, report).log;
    var m := Apply(s, refuses, day, report[..i]);
    CreatedOnly(s, refuses, day, report, i);
    AnsweredAs(s, refuses, day, report, i);
    LogGrows(s, refuses, day, report, i);
    GroupsAfter(s, refuses, day, report[..i]);
    var n := report[i].name;
    var l :| 0 <= l < |n| && Above(n[..l], n) && n[..l] !in m.groups;
    var a := report[i].name[..l];
    var k := CoveredBy(report, groups.Keys, i, a);
    assert m.log[k] == log[k];
    if log[k] in {Landed, AlreadyThere} {
      There(s, refuses, day, report[..i], k);
    }
    AnsweredAs(s, refuses, day, report, k);
    if log[k] == Refused(false) {
      j := k;
    } else {
      j := OrphansTraceToRefusal(groups, asked, refuses, day, report, k);
      AboveAbove(report[i].name, a, report[j].name);
    }
  }

  lemma CreatedOnly(s: Run, refuses: nat -> bool, day: Marker.Day, report: seq<Verdict>, i: nat)
    requires s.log == [] && i < |report| == |Apply(s, refuses, day, report).log|
    ensures Apply(s, refuses, day, report).log[i] != Counted ==> report[i].action == Create
  {
    hide ReplyTo, BodyOf;
    LogGrows(s, refuses, day, report, i + 1);
    LogGrows(s, refuses, day, report[..i + 1], i);
    assert report[..i + 1][..i] == report[..i];
    assert Apply(s, refuses, day, report[..i + 1]).log[i] == Apply(s, refuses, day, report).log[i];
  }

  lemma CoveredBy(report: seq<Verdict>, target: set<string>, i: nat, a: string) returns (k: nat)
    requires Ordered(report, target) && i < |report| && report[i].action == Create
    requires Above(a, report[i].name) && a !in target
    ensures k < i && report[k].name == a && report[k].action == Create
  {
    hide Above;
    assert CoveredAt(report, target, i);
    assert Covered(report[..i], target, a);
    k :| 0 <= k < i && report[..i][k].name == a && report[..i][k].action == Create;
  }

  lemma AboveAbove(name: string, a: string, b: string)
    requires Above(a, name) && Above(b, a)
    ensures Above(b, name)
  {
    assert b + "#" <= a <= name;
  }

  lemma NoneRefused(groups: Groups, asked: nat, refuses: nat -> bool, day: Marker.Day, report: seq<Verdict>, i: nat)
    requires Ordered(report, groups.Keys) && Willing(refuses)
    requires i < |report| == |Apply(Start(groups, asked), refuses, day, report).log|
    ensures Taken(report, Apply(Start(groups, asked), refuses, day, report), i)
  {
    hide Ordered, Apply;
    var s := Start(groups, asked);
    OwnAccord(s, refuses, day, report, i);
    CreatedOnly(s, refuses, day, report, i);
    if Apply(s, refuses, day, report).log[i] == Refused(true) {
      var j := OrphansTraceToRefusal(groups, asked, refuses, day, report, i);
      OwnAccord(s, refuses, day, report, j);
    } else if report[i].action == Create {
      Asked(s, refuses, day, report, i);
      There(s, refuses, day, report, i);
    }
  }

  // A target that refuses nothing of its own accord refuses nothing at all, and
  // ends with every group the report clears.
  lemma NothingRefused(groups: Groups, asked: nat, refuses: nat -> bool, day: Marker.Day, report: seq<Verdict>)
    requires Ordered(report, groups.Keys) && Willing(refuses)
    ensures var f := Apply(Start(groups, asked), refuses, day, report);
            && |f.log| == |report| && (forall i :: 0 <= i < |report| ==> !f.log[i].Refused?)
            && f.groups.Keys == groups.Keys + Cleared(report)
  {
    var s := Start(groups, asked);
    assert s.log == [] && s.groups == groups;
    hide *;
    var f := Apply(s, refuses, day, report);
    GroupsAfter(s, refuses, day, report);
    forall i: nat | i < |report|
      ensures Taken(report, f, i)
    {
      NoneRefused(groups, asked, refuses, day, report, i);
    }
    LandedAreCleared(report, f, groups.Keys);
  }

  // Entry i was not refused, and is there if it was cleared.
  ghost predicate Taken(report: seq<Verdict>, f: Run, i: nat)
    requires i < |report| == |f.log|
  {
    && !f.log[i].Refused?
    && (report[i].action == Create ==> report[i].name in f.groups)
    && (f.log[i] == Landed ==> report[i].action == Create)
  }

  lemma LandedAreCleared(report: seq<Verdict>, f: Run, before: set<string>)
    requires |report| == |f.log| && f.groups.Keys == before + LandedNames(report, f.log)
    requires forall i: nat :: i < |report| ==> Taken(report, f, i)
    ensures f.groups.Keys == before + Cleared(report)
    ensures forall i :: 0 <= i < |report| ==> !f.log[i].Refused?
  {
    forall v | v in report && v.action == Create
      ensures v.name in f.groups
    {
      var i: nat :| i < |report| && report[i] == v;
      assert Taken(report, f, i);
    }
    forall n | n in LandedNames(report, f.log)
      ensures n in Cleared(report)
    {
      var i: nat :| i < |report| && f.log[i] == Landed && report[i].name == n;
      assert Taken(report, f, i) && report[i] in report;
    }
    forall i: nat | i < |report|
      ensures !f.log[i].Refused?
    {
      assert Taken(report, f, i);
    }
  }

  function Cleared(report: seq<Verdict>): set<string> { set v | v in report && v.action == Create :: v.name }

  lemma OwnAccord(s: Run, refuses: nat -> bool, day: Marker.Day, report: seq<Verdict>, i: nat)
    requires s.log == [] && i < |report| == |Apply(s, refuses, day, report).log| && Willing(refuses)
    ensures Apply(s, refuses, day, report).log[i] != Refused(false)
  {
    hide BodyOf, ReplyTo, Apply;
    CreatedOnly(s, refuses, day, report, i);
    if report[i].action == Create {
      AnsweredAs(s, refuses, day, report, i);
      var m := Apply(s, refuses, day, report[..i]);
      LandedIsNew(m.groups.Keys, report[i].name, refuses(m.asked));
    }
  }

  lemma Asked(s: Run, refuses: nat -> bool, day: Marker.Day, report: seq<Verdict>, i: nat)
    requires s.log == [] && i < |report| == |Apply(s, refuses, day, report).log| && report[i].action == Create
    ensures Apply(s, refuses, day, report).log[i] != Counted
  {
    hide BodyOf, ReplyTo, Apply;
    AnsweredAs(s, refuses, day, report, i);
    var m := Apply(s, refuses, day, report[..i]);
    LandedIsNew(m.groups.Keys, report[i].name, refuses(m.asked));
  }

  // --- whose content ------------------------------------------------------------------------

  // One entry keeps what is there, and answers a group that is there as a duplicate.
  lemma StepKeeps(m: Run, refuses: nat -> bool, day: Marker.Day, v: Verdict, name: string)
    requires name in m.groups
    ensures var f := Step(m, refuses, day, v);
            && name in f.groups && f.groups[name] == m.groups[name]
            && |f.log| == |m.log| + 1 && f.log[..|m.log|] == m.log
            && (v.name == name && v.action == Create ==> f.log[|m.log|] == AlreadyThere)
  {
    hide BodyOf, ReplyTo;
    LandedIsNew(m.groups.Keys, v.name, refuses(m.asked));
  }

  lemma StepLands(m: Run, refuses: nat -> bool, day: Marker.Day, v: Verdict)
    ensures var f := Step(m, refuses, day, v);
            && |f.log| == |m.log| + 1
            && (f.log[|m.log|] == Landed ==> v.name in f.groups && f.groups[v.name] == BodyOf(v.obj, day))
  {
    hide BodyOf, ReplyTo;
    LandedIsNew(m.groups.Keys, v.name, refuses(m.asked));
  }

  // Once a create has landed, later ones of that name are answered as duplicates
  // and what landed stays.
  lemma {:induction false} FirstStays(s: Run, refuses: nat -> bool, day: Marker.Day, report: seq<Verdict>, k: nat)
    requires s.log == [] && k < |report| == |Apply(s, refuses, day, report).log|
    requires Apply(s, refuses, day, report).log[k] == Landed
    ensures var f := Apply(s, refuses, day, report);
            && report[k].name in f.groups && f.groups[report[k].name] == BodyOf(report[k].obj, day)
            && forall j :: k < j < |report| && report[j].name == report[k].name && report[j].action == Create ==>
                f.log[j] == AlreadyThere
  {
    hide BodyOf, Step;
    var n := |report| - 1;
    var m := Apply(s, refuses, day, report[..n]);
    LogGrows(s, refuses, day, report, n);
    if k < n {
      FirstStays(s, refuses, day, report[..n], k);
      StepKeeps(m, refuses, day, report[n], report[k].name);
    } else {
      StepLands(m, refuses, day, report[n]);
    }
  }

  // A group of the bundle that another group of it needs, and the target lacks,
  // is created from its name alone: when that create lands, the bundle's own group
  // is answered as a duplicate, and its description and everything else it
  // carries does not arrive.
  lemma NeededGroupsLoseTheirContent(items: seq<Object>, target: Groups, readable: bool, asked: nat,
                                     report: seq<Verdict>, refuses: nat -> bool, day: Marker.Day, k: nat, i: nat)
    requires Reported(report, items, target, readable) && k < |report| - |items| && i < |items|
    requires report[k].name == Text(items[i], Name)
    requires |Apply(Start(target, asked), refuses, day, report).log| == |report|
    requires Apply(Start(target, asked), refuses, day, report).log[k] == Landed
    ensures var f := Apply(Start(target, asked), refuses, day, report);
            var name := Text(items[i], Name);
            && f.log[|report| - |items| + i] == AlreadyThere
            && name in f.groups && f.groups[name] == BodyOf(Pulled(name).obj, day)
  {
    hide BodyOf, Above, Pulled, Ordered, NoRepeats;
    var name, pulled := Text(items[i], Name), |report| - |items|;
    FirstStays(Start(target, asked), refuses, day, report, k);
    assert report[..pulled][k] == report[k] && report[k] in report[..pulled];
    assert report[pulled..][i] == report[pulled + i] == Own(items[i], target, readable);
    assert name in NamesOf(report[..pulled]);
    NeededIsNamed(ItemNames(items), name);
  }

  // The first entry for a name the target lacks lands, on a willing target.
  lemma FirstLands(groups: Groups, asked: nat, refuses: nat -> bool, day: Marker.Day, report: seq<Verdict>, k: nat)
    requires Ordered(report, groups.Keys) && Willing(refuses) && k < |report| && report[k].action == Create
    requires report[k].name !in groups && forall j :: 0 <= j < k ==> report[j].name != report[k].name
    ensures |Apply(Start(groups, asked), refuses, day, report).log| == |report|
    ensures Apply(Start(groups, asked), refuses, day, report).log[k] == Landed
  {
    hide Ordered, Willing, Apply, ReplyTo;
    var s := Start(groups, asked);
    AnsweredAs(s, refuses, day, report, k);
    NoneRefused(groups, asked, refuses, day, report, k);
    var m := Apply(s, refuses, day, report[..k]);
    LandedIsNew(m.groups.Keys, report[k].name, refuses(m.asked));
    GroupsAfter(s, refuses, day, report[..k]);
    assert report[k].name !in LandedNames(report[..k], m.log);
  }

  // On such a target the create of a group of the bundle that is not there yet lands
  // if and only if no group of the bundle needs it.
  lemma OwnLandsExactly(items: seq<Object>, target: Groups, readable: bool, asked: nat, report: seq<Verdict>,
                        refuses: nat -> bool, day: Marker.Day, i: nat)
    requires Reported(report, items, target, readable) && Willing(refuses) && i < |items|
    requires forall j :: 0 <= j < i ==> Text(items[j], Name) != Text(items[i], Name)
    requires Text(items[i], Name) != "" && Text(items[i], Name) !in target
    ensures var f := Apply(Start(target, asked), refuses, day, report);
            var own := |report| - |items| + i;
            && |f.log| == |report|
            && (f.log[own] == Landed <==> Text(items[i], Name) !in NeededBy(ItemNames(items)))
            && (f.log[own] == Landed ==>
                 Text(items[i], Name) in f.groups && f.groups[Text(items[i], Name)] == BodyOf(items[i], day))
  {
    hide BodyOf, Apply, Ordered, NeededBy, Text, Willing, Pulled;
    var name, pulled := Text(items[i], Name), |report| - |items|;
    var s := Start(target, asked);
    var own := pulled + i;
    forall j | 0 <= j < |items|
      ensures report[pulled + j] == Own(items[j], target, readable) && report[pulled + j].name == Text(items[j], Name)
    {
      assert report[pulled..][j] == report[pulled + j];
      OwnName(items[j], target, readable);
    }
    LogGrows(s, refuses, day, report, 0);
    if name in NeededBy(ItemNames(items)) {
      assert name in NamesOf(report[..pulled]);
      var k := PulledPlace(report, pulled, name);
      FirstLands(target, asked, refuses, day, report, k);
      NeededGroupsLoseTheirContent(items, target, readable, asked, report, refuses, day, k, i);
    } else {
      forall j | 0 <= j < own
        ensures report[j].name != name
      {
        if j < pulled {
          assert report[..pulled][j] in report[..pulled] && report[..pulled][j].name in NamesOf(report[..pulled]);
        } else {
          assert report[pulled + (j - pulled)].name == Text(items[j - pulled], Name);
        }
      }
      FirstLands(target, asked, refuses, day, report, own);
      FirstStays(s, refuses, day, report, own);
    }
  }

  // A group that carries nothing but what its name gives.
  predicate Bare(group: Object, name: string, day: Marker.Day) {
    && Compact(group - {Kind, Description}) == map[Name := Str(name), GROUP_TYPE := Str(Split(name, '#')[0])]
    && Text(group, Description) in ["", Marker.Stamp(day)]
  }

  // So such a group arrives as the bundle has it if and only if no group of the
  // bundle needs it, or it has nothing to lose.
  lemma ContentArrivesExactly(items: seq<Object>, target: Groups, readable: bool, asked: nat, report: seq<Verdict>,
                              refuses: nat -> bool, day: Marker.Day, i: nat)
    requires Reported(report, items, target, readable) && Willing(refuses) && i < |items|
    requires forall j :: 0 <= j < i ==> Text(items[j], Name) != Text(items[i], Name)
    requires Text(items[i], Name) != "" && Text(items[i], Name) !in target
    ensures var f := Apply(Start(target, asked), refuses, day, report);
            var name := Text(items[i], Name);
            && name in f.groups
            && (f.groups[name] == BodyOf(items[i], day) <==>
                  name !in NeededBy(ItemNames(items)) || Bare(items[i], name, day))
  {
    hide BodyOf, Apply, Ordered, NeededBy, Text, Willing, Pulled, Bare, NoRepeats;
    var name, pulled := Text(items[i], Name), |report| - |items|;
    OwnLandsExactly(items, target, readable, asked, report, refuses, day, i);
    if name in NeededBy(ItemNames(items)) {
      assert name in NamesOf(report[..pulled]);
      var k := PulledPlace(report, pulled, name);
      FirstLands(target, asked, refuses, day, report, k);
      NeededGroupsLoseTheirContent(items, target, readable, asked, report, refuses, day, k, i);
      BareExactly(items[i], name, day);
    }
  }

  lemma BareExactly(group: Object, name: string, day: Marker.Day)
    ensures BodyOf(group, day) == BodyOf(Pulled(name).obj, day) <==> Bare(group, name, day)
  {
    var bare: Object := map[Name := Str(name), GROUP_TYPE := Str(Split(name, '#')[0])];
    var pulled := Pulled(name).obj;
    assert pulled - {Kind, Description} == bare && Compact(bare) == bare && Text(pulled, Description) == "";
    hide Marker.Tag, Compact, Marker.Stamp;
    BodyParts(group, day);
    BodyParts(pulled, day);
    TagIsStamp(Text(group, Description), day);
    var x, y := Str(Marker.Tag(Text(group, Description), day)), Str(Marker.Tag("", day));
    SameParts(Compact(group - {Kind, Description}), bare, x, y);
  }

  lemma SameParts(a: Object, b: Object, x: Json, y: Json)
    requires Description !in a && Description !in b
    ensures a[Description := x] == b[Description := y] <==> a == b && x == y
  {
    var p, q := a[Description := x], b[Description := y];
    if p == q {
      assert p[Description] == x && q[Description] == y;
      assert a == p - {Description} && b == q - {Description};
    }
  }

  // What is sent is the marked description and, apart from it, the rest without nulls.
  lemma BodyParts(group: Object, day: Marker.Day)
    ensures var rest := Compact(group - {Kind, Description});
            Description !in rest && BodyOf(group, day) ==
                rest[Description := Str(Marker.Tag(Text(group, Description), day))]
  {
    hide Marker.Tag, WithoutNulls;
    var tag := Str(Marker.Tag(Text(group, Description), day));
    assert WithoutNulls(tag) == tag by { PlainStays(tag); }
    assert BodyOf(group, day) == Compact(group - {Kind, Description})[Description := tag];
  }

  lemma PlainStays(v: Json)
    requires v.Str?
    ensures WithoutNulls(v) == v
  {
  }

  lemma TagIsStamp(desc: string, day: Marker.Day)
    ensures Marker.Tag(desc, day) == Marker.Tag("", day) <==> desc in ["", Marker.Stamp(day)]
  {
    Marker.StampShape(day);
    Marker.TagMarks("", day);
    assert !Marker.Contains("", Marker.PREFIX);
    assert Marker.Tag("", day) == Marker.Stamp(day);
  }

  // Where a pulled group stands: it is there once, and it is to be created.
  lemma PulledPlace(report: seq<Verdict>, pulled: nat, name: string) returns (k: nat)
    requires pulled <= |report| && name in NamesOf(report[..pulled]) && NoRepeats(report[..pulled])
    requires forall v :: v in report[..pulled] ==> v == Pulled(v.name)
    ensures k < pulled && report[k].name == name && report[k].action == Create
    ensures forall j :: 0 <= j < k ==> report[j].name != name
  {
    var v :| v in report[..pulled] && v.name == name;
    k :| 0 <= k < pulled && report[..pulled][k] == v;
    forall j | 0 <= j < k
      ensures report[j].name != name
    {
      assert report[..pulled][j].name != report[..pulled][k].name;
    }
  }

  lemma TopHasNothingAbove()
    ensures forall a :: !Above(a, "T#All")
  {
    var name := "T#All";
    assert forall n :: 0 <= n < |name| && name[n] == '#' ==> name[..n] == "T";
    forall a
      ensures a + "#" <= name ==> a == "T"
    {
      if a + "#" <= name { assert name[|a|] == '#' && a == name[..|a|]; }
    }
  }

  lemma OneAbove()
    ensures forall a :: Above(a, "T#All#R") <==> a == "T#All"
  {
    assert "T#All#R"[..6] == "T#All" + "#";
    forall a | Above(a, "T#All#R")
      ensures a == "T#All"
    {
      assert "T#All#R"[|a|] == '#' && a == "T#All#R"[..|a|];
      assert |a| == 1 || |a| == 5;
    }
  }

  // The description of the group above is lost, on a target that takes everything.
  lemma DescriptionIsLost(day: Marker.Day) returns (items: seq<Object>, report: seq<Verdict>, f: Run)
    ensures |items| == 2 && Reported(report, items, map[], true) && f == Apply(Start(map[], 0), n => false, day, report)
    ensures Text(items[0], Description) == "ours" && Text(items[0], Name) in f.groups
    ensures f.groups[Text(items[0], Name)] != BodyOf(items[0], day)
  {
    var all: Object := map[Name := Str("T#All"), Kind := Str(GROUP), Description := Str("ours")];
    var one: Object := map[Name := Str("T#All#R"), Kind := Str(GROUP)];
    items := [all, one];
    report := [Pulled("T#All"), Own(all, map[], true), Own(one, map[], true)];
    f := Apply(Start(map[], 0), n => false, day, report);
    TwoReported(all, one, report);
    LogGrows(Start(map[], 0), n => false, day, report, 0);
    TopHasNothingAbove();
    AnsweredAs(Start(map[], 0), n => false, day, report, 0);
    hide Apply, Above, BodyOf, Reported;
    NeededGroupsLoseTheirContent(items, map[], true, 0, report, n => false, day, 0, 0);
    BodiesDiffer(all, day);
  }

  lemma OneNeeded()
    ensures NeededBy(["T#All", "T#All#R"]) == {"T#All"}
  {
    TopHasNothingAbove();
    OneAbove();
    hide Above;
    var names := ["T#All", "T#All#R"];
    NeededIs(names);
    assert names[1] in names && forall n :: n in names ==> n == "T#All" || n == "T#All#R";
  }

  lemma TwoReported(all: Object, one: Object, report: seq<Verdict>)
    requires Text(all, Name) == "T#All" && Text(one, Name) == "T#All#R"
    requires report == [Pulled("T#All"), Own(all, map[], true), Own(one, map[], true)]
    ensures Reported(report, [all, one], map[], true)
  {
    TopHasNothingAbove();
    OneAbove();
    hide Above;
    var target: Groups := map[];
    assert report[1].name == "T#All" && report[2].name == "T#All#R";
    assert report[..1] == [report[0]];
    assert report[1..] == seq(2, i requires 0 <= i < 2 => Own([all, one][i], target, true));
    assert ItemNames([all, one]) == ["T#All", "T#All#R"];
    OneNeeded();
    hide NeededBy, Own, Text;
    assert report[..2][0] == report[0] && report[0].action == Create;
    assert Covered(report[..2], {}, "T#All");
    assert AllCovered(report[..2], {}, "T#All#R");
    assert CoveredAt(report, {}, 0) && CoveredAt(report, {}, 1) && CoveredAt(report, {}, 2);
    assert target.Keys == {};
    assert Ordered(report, target.Keys);
  }

  lemma BodiesDiffer(all: Object, day: Marker.Day)
    requires Text(all, Description) == "ours" && Text(all, Name) == "T#All"
    ensures BodyOf(all, day) != BodyOf(Pulled("T#All").obj, day)
  {
    hide Marker.Tag, Compact;
    var mine, theirs := all - {Kind}, Pulled("T#All").obj - {Kind};
    CompactKeepsText(mine[Description := Str(Marker.Tag("ours", day))], Description);
    CompactKeepsText(theirs[Description := Str(Marker.Tag("", day))], Description);
    TagsDiffer(day);
  }

  lemma TagsDiffer(day: Marker.Day)
    ensures Marker.Tag("ours", day) != Marker.Tag("", day)
  {
    Marker.StampShape(day);
    forall i: nat | i <= 4
      ensures !Marker.OccursAt("ours", Marker.PREFIX, i) && !Marker.OccursAt("", Marker.PREFIX, i)
    {
    }
    assert |Marker.Tag("ours", day)| == 25 && |Marker.Tag("", day)| == 20;
  }

  lemma NeededIsNamed(names: seq<string>, a: string)
    requires a in NeededBy(names)
    ensures a != ""
  {
    NeededIs(names);
    var n :| n in names && Above(a, n);
  }

  // From pre-flight to apply: whatever order the map is walked in, a target that
  // refuses nothing of its own accord refuses none of the groups for want of a
  // parent, and ends up with its own groups, every named group of the bundle and
  // everything they need.
  method ImportGroups(t: GroupTarget, items: seq<Object>, order: seq<string>, readable: bool, day: Marker.Day,
                      res: ImportResult)
    requires forall n :: n in order <==> n in ItemNames(items)
    modifies t, res
    ensures Willing(t.refuses) ==>
              t.groups.Keys == old(t.groups).Keys + NeededBy(ItemNames(items)) +
                  (set n | n in ItemNames(items) && n != "")
    ensures forall n :: n in old(t.groups) ==> n in t.groups && t.groups[n] == old(t.groups)[n]
  {
    hide Above, Ordered, NoRepeats, Apply;
    ghost var target, asked := t.groups, t.asked;
    var report := PreflightGroups(items, order, t.groups, readable);
    ApplyGroups(t, report, day, res);
    GroupsAfter(Start(target, asked), t.refuses, day, report);
    ClearedIs(report, items, target, readable);
    if Willing(t.refuses) {
      NothingRefused(target, asked, t.refuses, day, report);
    }
  }

  lemma ClearedIs(report: seq<Verdict>, items: seq<Object>, target: Groups, readable: bool)
    requires Reported(report, items, target, readable)
    ensures target.Keys + Cleared(report)
         == target.Keys + NeededBy(ItemNames(items)) + (set n | n in ItemNames(items) && n != "")
  {
    hide Above, Ordered, NoRepeats, NeededBy, Text, Own, Pulled;
    var names, pulled := ItemNames(items), |report| - |items|;
    var a, b := report[..pulled], report[pulled..];
    assert report == a + b;
    assert Cleared(report) == Cleared(a) + Cleared(b);
    assert Cleared(a) == NamesOf(a) by { PulledAreCleared(a); }
    OwnCleared(b, items, target, readable);
  }

  lemma OwnCleared(b: seq<Verdict>, items: seq<Object>, target: Groups, readable: bool)
    requires b == seq(|items|, i requires 0 <= i < |items| => Own(items[i], target, readable))
    ensures Cleared(b) == (set n | n in ItemNames(items) && n != "") - target.Keys
  {
    hide Text;
    var names := ItemNames(items);
    forall n | n in names && n != "" && n !in target
      ensures n in Cleared(b)
    {
      var i :| 0 <= i < |names| && names[i] == n;
      assert b[i] == Own(items[i], target, readable) && b[i] in b;
    }
    forall n | n in Cleared(b)
      ensures n in names && n != "" && n !in target
    {
      var v :| v in b && v.action == Create && v.name == n;
      var i :| 0 <= i < |b| && b[i] == v;
      assert v == Own(items[i], target, readable) && names[i] == n;
    }
  }

  lemma PulledAreCleared(report: seq<Verdict>)
    requires forall v :: v in report ==> v == Pulled(v.name)
    ensures Cleared(report) == NamesOf(report)
  {
    assert forall v :: v in report ==> v.action == Create;
  }
}
