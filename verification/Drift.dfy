// Comparing an object of the bundle with the one of that name on the target, field
// by field, and when an object this tool created reads like its own source.
module Drift {
  import opened Objects
  import opened Marker
  import opened Sorting

  // Bookkeeping that differs between any two deployments, or is this tool's own.
  const IGNORED := {Id, Link, Kind, ConditionPath}

  // A property that is absent reads as null.
  function Field(o: Object, k: Key): Json { if k in o then o[k] else Null }

  predicate Differs(mine: Object, theirs: Object, k: Key) {
    if k == Description then Strip(Text(mine, k)) != Strip(Text(theirs, k))
    else Field(mine, k) != Field(theirs, k)
  }

  function Drifted(mine: Object, theirs: Object): set<Key> {
    set k | k in mine.Keys + theirs.Keys && k !in IGNORED && Differs(mine, theirs, k)
  }

  function Elems(fields: seq<Key>): set<Key> { set k | k in fields }

  predicate NoRepeats(fields: seq<Key>) {
    forall i, j :: 0 <= i < j < |fields| ==> fields[i] != fields[j]
  }

  // The comparison loop. A map is walked in whatever order it comes; `seen`
  // keeps a field of both copies from being compared twice.
  // A target object that could not be read is compared with nothing.
  method DriftFields(mine: Object, target: Option<Object>) returns (fields: seq<Key>)
    ensures Elems(fields) == if target.Some? then Drifted(mine, target.value) else {}
    ensures NoRepeats(fields) && InOrder(fields, KeyText)
  {
    hide InOrder, Sorted;
    fields := [];
    if target.None? {
      NoneInOrder(KeyText);
      return;
    }
    var theirs := target.value;
    ghost var drifted := Drifted(mine, theirs);
    var seen: set<Key> := {};
    seen, fields := CompareCopy(mine, theirs, mine, seen, fields, drifted);
    seen, fields := CompareCopy(mine, theirs, theirs, seen, fields, drifted);
    SortedFields(fields);
    fields := Sorted(fields, KeyText);
  }

  method CompareCopy(mine: Object, theirs: Object, copy: Object, seen0: set<Key>, fields0: seq<Key>,
                     ghost drifted: set<Key>)
    returns (seen: set<Key>, fields: seq<Key>)
    requires drifted == Drifted(mine, theirs) && copy in [mine, theirs]
    requires NoRepeats(fields0) && Elems(fields0) == seen0 * drifted
    ensures NoRepeats(fields) && Elems(fields) == seen * drifted
    ensures seen == seen0 + (copy.Keys - IGNORED)
  {
    seen, fields := seen0, fields0;
    var left := copy.Keys;
    while left != {}
      invariant left <= copy.Keys
      invariant NoRepeats(fields) && Elems(fields) == seen * drifted
      invariant forall k :: k in seen <==> k in seen0 || (k in copy && k !in left && k !in IGNORED)
      decreases |left|
    {
      var k :| k in left;
      left := left - {k};
      if k !in IGNORED && k !in seen {
        var differs := Compare(mine, theirs, k);
        assert k in fields ==> k in Elems(fields);
        seen, fields := Note(k, differs, seen, fields, drifted);
      }
    }
  }

  method Compare(mine: Object, theirs: Object, k: Key) returns (differs: bool)
    requires k !in IGNORED && (k in mine || k in theirs)
    ensures differs <==> k in Drifted(mine, theirs)
  {
    differs := Differs(mine, theirs, k);
  }

  method Note(k: Key, differs: bool, seen0: set<Key>, fields0: seq<Key>, ghost drifted: set<Key>)
    returns (seen: set<Key>, fields: seq<Key>)
    requires k !in fields0 && NoRepeats(fields0) && Elems(fields0) == seen0 * drifted
    requires differs <==> k in drifted
    ensures NoRepeats(fields) && Elems(fields) == seen * drifted
    ensures seen == seen0 + {k}
  {
    seen := seen0 + {k};
    fields := if differs then fields0 + [k] else fields0;
    assert Elems(fields0 + [k]) == Elems(fields0) + {k};
  }

  // A field is reported if and only if it is none of the four that tell deployments
  // apart or are this tool's own, and the two copies differ in it, one that is not
  // there reading as null; the descriptions by what is left without their markers.
  lemma DriftedExactly(mine: Object, theirs: Object, k: Key)
    ensures k in Drifted(mine, theirs) <==>
              && k !in {Id, Link, Kind, ConditionPath}
              && if k == Description then Strip(Text(mine, Description)) != Strip(Text(theirs, Description))
                 else (if k in mine then mine[k] else Null) != (if k in theirs then theirs[k] else Null)
  {
    hide Strip;
  }

  // Neither copy is privileged.
  lemma DriftSymmetric(mine: Object, theirs: Object)
    ensures Drifted(mine, theirs) == Drifted(theirs, mine)
  {
    assert forall k :: Differs(mine, theirs, k) == Differs(theirs, mine, k);
  }

  // ---------------------------------------------------------------------------
  // The order fields are reported in.

  function KeyText(k: Key): string {
    match k
    case Id => "id" case Name => "name" case Link => "link" case Kind => "kind"
    case Description => "description" case GenerationId => "generationId" case MatrixId => "matrixId"
    case TagValue => "value" case SourceSgtId => "sourceSgtId" case DestinationSgtId => "destinationSgtId"
    case SourceSgtName => "sourceSgtName" case DestinationSgtName => "destinationSgtName"
    case Sgacls => "sgacls" case SgaclNames => "sgaclNames" case DefaultRule => "defaultRule"
    case MatrixCellStatus => "matrixCellStatus" case ConditionType => "conditionType" case Children => "children"
    case DictionaryName => "dictionaryName" case AttributeName => "attributeName" case ConditionPath => "conditionPath"
    case Mac => "mac" case GroupId => "groupId" case GroupName => "groupName"
    case ProfileId => "profileId" case ProfileName => "profileName" case Profile => "profile"
    case StaticGroup => "staticGroupAssignment" case StaticProfile => "staticProfileAssignment"
    case Other(text) => text
  }

  // Sorting keeps the fields, and repeats none.
  lemma SortedFields(fields: seq<Key>)
    ensures InOrder(Sorted(fields, KeyText), KeyText) && Elems(Sorted(fields, KeyText)) == Elems(fields)
    ensures NoRepeats(fields) ==> NoRepeats(Sorted(fields, KeyText))
  {
    SortedIs(fields, KeyText);
    hide InOrder, Sorted, Elems, NoRepeats;
    SameElems(fields, Sorted(fields, KeyText));
  }

  lemma SameElems(a: seq<Key>, b: seq<Key>)
    requires multiset(a) == multiset(b)
    ensures Elems(a) == Elems(b) && (NoRepeats(a) ==> NoRepeats(b))
  {
    assert forall k :: k in a <==> k in multiset(a);
    assert forall k :: k in b <==> k in multiset(b);
    if NoRepeats(a) { RepeatsCount(a); RepeatsCount(b); }
  }

  lemma {:induction false} RepeatsCount(s: seq<Key>)
    ensures NoRepeats(s) <==> forall k :: multiset(s)[k] <= 1
  {
    if s != [] {
      var x, t := s[0], s[1..];
      assert s == [x] + t;
      RepeatsCount(t);
      RepeatsCons(x, t);
      assert multiset(s) == multiset{x} + multiset(t);
      assert forall k :: multiset(s)[k] == multiset(t)[k] + if k == x then 1 else 0;
      assert x in t <==> x in multiset(t);
      assert multiset(s)[x] == multiset(t)[x] + 1;
    }
  }

  lemma RepeatsCons(k: Key, s: seq<Key>)
    ensures NoRepeats([k] + s) <==> k !in s && NoRepeats(s)
  {
    var t := [k] + s;
    if NoRepeats(t) {
      forall j | 0 <= j < |s|
        ensures s[j] != k
      {
        assert t[0] == k && t[j + 1] == s[j];
      }
      forall i, j | 0 <= i < j < |s|
        ensures s[i] != s[j]
      {
        assert t[i + 1] == s[i] && t[j + 1] == s[j];
      }
    }
  }

  // The report does not depend on the order the maps were walked in: there is one
  // way to list the drifted fields in order, their texts telling them apart.
  lemma OneReport(a: seq<Key>, b: seq<Key>)
    requires InOrder(a, KeyText) && InOrder(b, KeyText) && NoRepeats(a) && NoRepeats(b) && Elems(a) == Elems(b)
    requires forall x, y :: x in a && y in a && KeyText(x) == KeyText(y) ==> x == y
    ensures a == b
  {
    hide InOrder, KeyText;
    RepeatsCount(a);
    RepeatsCount(b);
    forall k
      ensures multiset(a)[k] == multiset(b)[k]
    {
      assert k in a <==> k in Elems(a);
      assert k in b <==> k in Elems(b);
      assert k in a <==> k in multiset(a);
      assert k in b <==> k in multiset(b);
    }
    OneOrder(a, b, KeyText);
  }

  // ---------------------------------------------------------------------------
  // Nulls below the top level, where a create would drop them.

  predicate NullFree(v: Json) {
    match v
    case Obj(f) => forall k :: k in f ==> f[k] != Null && NullFree(f[k])
    case Arr(es) => forall i :: 0 <= i < |es| ==> es[i] != Null && (es[i].Obj? ==> NullFree(es[i]))
    case _ => true
  }

  lemma {:induction false} NullFreeExact(v: Json)
    ensures WithoutNulls(v) == v <==> NullFree(v)
    decreases v, 1
  {
    match v {
      case Obj(f) =>
        forall k | k in f
          ensures WithoutNulls(f[k]) == f[k] <==> NullFree(f[k])
        {
          NullFreeExact(f[k]);
        }
        var g := map k | k in f && f[k] != Null :: WithoutNulls(f[k]);
        assert WithoutNulls(v) == Obj(g);
        if g == f {
          forall k | k in f
            ensures f[k] != Null && NullFree(f[k])
          {
            assert k in g;
          }
        }
      case Arr(es) => ElementsNullFreeExact(es);
      case _ =>
    }
  }

  lemma {:induction false} ElementsShrink(es: seq<Json>)
    ensures |ElementsWithoutNulls(es)| <= |es|
  {
    if es != [] { ElementsShrink(es[1..]); }
  }

  lemma {:induction false} ElementsNullFreeExact(es: seq<Json>)
    ensures ElementsWithoutNulls(es) == es <==>
            forall i :: 0 <= i < |es| ==> es[i] != Null && (es[i].Obj? ==> NullFree(es[i]))
    decreases es, 0
  {
    if es != [] {
      var rest := ElementsWithoutNulls(es[1..]);
      ElementsNullFreeExact(es[1..]);
      ElementsShrink(es[1..]);
      if es[0].Obj? { NullFreeExact(es[0]); }
      if es[0] != Null {
        var first := if es[0].Obj? then WithoutNulls(es[0]) else es[0];
        assert ElementsWithoutNulls(es) == [first] + rest;
        assert es == [es[0]] + es[1..];
        assert ([first] + rest == es) <==> (first == es[0] && rest == es[1..]) by {
          if [first] + rest == es {
            assert ([first] + rest)[0] == first && ([first] + rest)[1..] == rest;
          }
        }
      }
      assert (forall i :: 0 <= i < |es| ==> es[i] != Null && (es[i].Obj? ==> NullFree(es[i]))) <==>
             (es[0] != Null && (es[0].Obj? ==> NullFree(es[0])) &&
              forall i :: 0 <= i < |es[1..]| ==> es[1..][i] != Null && (es[1..][i].Obj? ==> NullFree(es[1..][i]))) by {
        assert forall i :: 0 < i < |es| ==> es[i] == es[1..][i - 1];
      }
    }
  }

  // ---------------------------------------------------------------------------
  // An element this tool created, as the target then holds it: the marked body
  // it was sent, under the target's own id and link. The ERS resources are sent
  // without nulls, the OpenAPI ones as they are.

  function Body(item: Object, day: Day, ers: bool): Object {
    var o := (item - {Kind, ConditionPath})[Description := Str(Tag(Text(item, Description), day))];
    if ers then Compact(o) else o
  }

  function Created(item: Object, day: Day, ers: bool, id: string, link: Json): Object {
    Body(item, day, ers)[Id := Str(id)][Link := link]
  }

  // A description that is found again behind the marker.
  predicate Survives(desc: string) {
    || Contains(desc, PREFIX)
    || (&& |desc| <= ROOM
        && !Contains(desc + " ", PREFIX)
        && (desc != "" ==> !IsSpace(desc[0]) && !IsSpace(desc[|desc| - 1])))
  }

  // A text with spaces around it cannot come back: what stripping gives is at
  // most the trimmed text.
  lemma UntrimmedIsShortened(desc: string, day: Day)
    requires !Contains(desc, PREFIX)
    requires desc != "" && (IsSpace(desc[0]) || IsSpace(desc[|desc| - 1]))
    ensures |Strip(Tag(desc, day))| < |desc|
  {
    hide Strip, Tag, Trim;
    var a, b := CoreOf(desc);
    StripTagShort(desc, day);
  }

  lemma TrimmedIsItself(desc: string)
    requires desc != "" ==> !IsSpace(desc[0]) && !IsSpace(desc[|desc| - 1])
    ensures Trim(desc) == desc
  {
    TrimIs(desc, 0, |desc|);
    assert desc[0..|desc|] == desc;
  }

  lemma SurvivesExact(desc: string, day: Day)
    ensures Strip(Tag(desc, day)) == Strip(desc) <==> Survives(desc)
  {
    if !Contains(desc, PREFIX) {
      assert Strip(desc) == desc;
      if desc != "" && (IsSpace(desc[0]) || IsSpace(desc[|desc| - 1])) {
        UntrimmedIsShortened(desc, day);
      } else {
        hide Strip, Tag, Trim, Contains;
        TrimmedIsItself(desc);
        StripTagExact(desc, day);
        if |desc| > ROOM { assert !IsSpace(desc[|desc| - 1]); }
      }
    }
  }

  lemma StripTagShort(desc: string, day: Day)
    requires !Contains(desc, PREFIX)
    ensures |Strip(Tag(desc, day))| <= |Trim(desc)|
  {
    TrimFront(desc);
    if Contains(Front(desc) + " ", PREFIX) {
      StripTagLoses(desc, day);
    } else {
      StripTag(desc, day);
    }
    if |desc| > ROOM {
      var a, b := CoreOf(desc);
      var c, d := CoreOf(desc[..ROOM]);
      if c < d {
        assert desc[..ROOM][c] == desc[c] && desc[..ROOM][d - 1] == desc[d - 1];
        assert a <= c && d <= b;
      }
    }
  }

  // An element created by this tool reads as identical to its source on the
  // next run exactly when its description survives the marker and, on the ERS
  // resources, no null hides below its top level.
  lemma NoSelfDrift(item: Object, day: Day, ers: bool, id: string, link: Json)
    ensures Drifted(item, Created(item, day, ers, id, link)) == {} <==>
            && Survives(Text(item, Description))
            && (ers ==> forall k :: k in item && k !in IGNORED && k != Description ==> NullFree(item[k]))
  {
    var theirs := Created(item, day, ers, id, link);
    var desc := Text(item, Description);
    SurvivesExact(desc, day);
    assert Text(theirs, Description) == Tag(desc, day);
    assert Description in Drifted(item, theirs) <==> !Survives(desc);
    forall k | k !in IGNORED && k != Description
      ensures k in Drifted(item, theirs) <==> ers && k in item && !NullFree(item[k])
    {
      if k in item { NullFreeExact(item[k]); }
    }
    if Drifted(item, theirs) == {} {
      forall k | k in item && k !in IGNORED && k != Description && ers
        ensures NullFree(item[k])
      {
        assert k !in Drifted(item, theirs);
      }
    } else {
      var k :| k in Drifted(item, theirs);
    }
  }

  // The two ways to drift from oneself: a description that runs into the marker,
  // and a null below the top level of an object the older API is sent.
  lemma DescriptionDrifts(day: Day, ers: bool, id: string, link: Json)
    ensures var item: Object := map[Name := Str("Printers"), Description := Str("wired [ise2ise")];
            Drifted(item, Created(item, day, ers, id, link)) == {Description}
  {
    hide Strip, Tag, Contains, Trim, Front;
    var item: Object := map[Name := Str("Printers"), Description := Str("wired [ise2ise")];
    var theirs := Created(item, day, ers, id, link);
    EndingInPrefixIsLost(day);
    assert Text(theirs, Description) == Tag("wired [ise2ise", day);
    assert Strip("wired [ise2ise") == "wired [ise2ise" by { Unmarked("wired [ise2ise"); }
  }

  lemma Unmarked(desc: string)
    requires !Contains(desc, PREFIX)
    ensures Strip(desc) == desc
  {
  }

  lemma NestedNullDrifts(day: Day, id: string, link: Json)
    ensures var item: Object := map[Name := Str("Printers"), Other("advanced") := Obj(map[Other("vlan") := Null])];
            Survives(Text(item, Description)) && Drifted(item, Created(item, day, true, id, link)) != {}
  {
    var item: Object := map[Name := Str("Printers"), Other("advanced") := Obj(map[Other("vlan") := Null])];
    NoSelfDrift(item, day, true, id, link);
    EmptySurvives();
    hide Created, Drifted, Survives;
    assert item[Other("advanced")].fields[Other("vlan")] == Null;
    assert !NullFree(item[Other("advanced")]);
  }

  lemma EmptySurvives()
    ensures Survives("")
  {
  }
}
