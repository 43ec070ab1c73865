// What removing links and removing nulls does to an object, place by place.
module ObjectPaths {
  import opened Objects
  import Picking

  datatype Hop = Field(k: Key) | Element(i: nat)

  // What stands at the end of a path.
  function Find(v: Json, path: seq<Hop>): Option<Json> {
    if path == [] then Some(v)
    else match path[0]
      case Field(k) => if v.Obj? && k in v.fields then Find(v.fields[k], path[1..]) else None
      case Element(i) => if v.Arr? && i < |v.elems| then Find(v.elems[i], path[1..]) else None
  }

  // The same text, number or truth value, or both an object, or both a list of the
  // same length.
  predicate Alike(a: Json, b: Json) {
    match a
    case Obj(_) => b.Obj?
    case Arr(es) => b.Arr? && |b.elems| == |es|
    case _ => a == b
  }

  // --- links ------------------------------------------------------------------------

  // Without its links a value has nothing under `link` at any depth, and everything
  // else where it was, as it was.
  lemma {:induction false} LinksGo(v: Json, path: seq<Hop>)
    ensures Field(Link) in path ==> Find(WithoutLinks(v), path) == None
    ensures Field(Link) !in path ==>
              match Find(v, path)
              case None => Find(WithoutLinks(v), path) == None
              case Some(x) => Find(WithoutLinks(v), path).Some? && Alike(x, Find(WithoutLinks(v), path).value)
    decreases |path|
  {
    if path != [] {
      var rest := path[1..];
      assert path == [path[0]] + rest;
      match path[0] {
        case Field(k) => if v.Obj? && k in v.fields && k != Link { LinksGo(v.fields[k], rest); }
        case Element(i) => if v.Arr? && i < |v.elems| { LinksGo(v.elems[i], rest); }
      }
    }
  }

  // The portable form of an object is all of it but its own id and every link.
  lemma PortableFormIs(o: Object, path: seq<Hop>)
    requires path != []
    ensures var p := Find(Obj(StripLocal(o)), path);
            if path[0] == Field(Id) || Field(Link) in path then p == None
            else match Find(Obj(o), path)
              case None => p == None
              case Some(x) => p.Some? && Alike(x, p.value)
  {
    hide WithoutLinks;
    var rest := path[1..];
    assert path == [path[0]] + rest;
    if path[0].Field? && path[0].k in o && path[0].k != Id && path[0].k != Link {
      LinksGo(o[path[0].k], rest);
    }
  }

  // --- nulls ------------------------------------------------------------------------

  predicate OnlyFields(path: seq<Hop>) { forall h :: h in path ==> h.Field? }

  // Without its nulls a value has no null at the end of any path of properties, and
  // everything else where it was: the same, an object, or a list.
  lemma {:induction false} NullsGo(v: Json, path: seq<Hop>)
    requires path != [] && OnlyFields(path)
    ensures var p := Find(WithoutNulls(v), path);
            match Find(v, path)
            case None => p == None
            case Some(Null) => p == None
            case Some(Arr(es)) => p == Some(Arr(ElementsWithoutNulls(es)))
            case Some(Obj(_)) => p.Some? && p.value.Obj?
            case Some(x) => p == Some(x)
    decreases |path|
  {
    if v.Obj? && path[0].k in v.fields {
      var x, rest := v.fields[path[0].k], path[1..];
      assert path == [path[0]] + rest;
      if rest == [] {
        assert Find(x, []) == Some(x) && Find(WithoutNulls(x), []) == Some(WithoutNulls(x));
      } else if x != Null {
        assert path[1] in path;
        assert forall h :: h in rest ==> h in path;
        NullsGo(x, rest);
      }
    }
  }

  // The places of a list's elements that are not null.
  function Kept(es: seq<Json>): (at: seq<nat>)
    ensures forall i: nat :: i in at <==> i < |es| && es[i] != Null
    ensures forall x, y :: 0 <= x < y < |at| ==> at[x] < at[y]
  {
    if es == [] then []
    else
      var n := |es| - 1;
      var at := Kept(es[..n]);
      assert forall x :: 0 <= x < |at| ==> at[x] in at;
      at + if es[n] != Null then [n] else []
  }

  // A list without its nulls is its other elements in order: the objects among them
  // without theirs, the rest as they are.
  lemma {:induction false} ListKept(es: seq<Json>)
    ensures var at, out := Kept(es), ElementsWithoutNulls(es);
            && |out| == |at|
            && forall x :: 0 <= x < |at| ==>
                 at[x] < |es| && out[x] == if es[at[x]].Obj? then WithoutNulls(es[at[x]]) else es[at[x]]
  {
    hide WithoutNulls;
    if es != [] {
      var n := |es| - 1;
      var before := es[..n];
      ListKept(before);
      LastElement(es);
      var at, out := Kept(before), ElementsWithoutNulls(before);
      forall x | 0 <= x < |at|
        ensures at[x] < n && before[at[x]] == es[at[x]]
      {
        assert at[x] in at;
      }
    }
  }

  lemma {:induction false} LastElement(es: seq<Json>)
    requires es != []
    ensures var n := |es| - 1;
            ElementsWithoutNulls(es) == ElementsWithoutNulls(es[..n])
              + (match es[n] case Null => [] case Obj(_) => [WithoutNulls(es[n])] case _ => [es[n]])
  {
    hide WithoutNulls;
    if |es| > 1 {
      LastElement(es[1..]);
      assert es[1..][..|es| - 2] == es[..|es| - 1][1..];
    }
  }

  // What a create body holds of an object: every property that is not null.
  lemma CreateBodyIs(o: Object, k: Key)
    ensures k in Compact(o) <==> k in o && o[k] != Null
    ensures k in Compact(o) ==> Compact(o)[k] == WithoutNulls(o[k])
  {
  }

  // --- lists of names ---------------------------------------------------------------

  function IsName(): Json -> bool { (v: Json) => v.Str? && v.s != "" }

  function AsName(): Json -> string { (v: Json) => if v.Str? then v.s else "" }

  // The names read off a list are its texts that are not empty, in order, whatever
  // stands between them.
  lemma {:induction false} StringsAre(vs: seq<Json>) returns (at: seq<nat>)
    ensures Picking.Picked(at, vs, Strings(vs), IsName(), AsName())
  {
    hide Picking.Picked;
    if vs == [] {
      Picking.NothingPicked(IsName(), AsName());
      at := [];
    } else {
      at := StringsAre(vs[1..]);
      at := Picking.FirstPicked(at, vs, Strings(vs[1..]), IsName(), AsName());
    }
  }
}
