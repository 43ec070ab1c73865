// A deployment's TrustSec collections as the program sees them over the API:
// three listed collections, the groups and SGACLs the list hides but a read by
// id returns, and a create that may be accepted, refused or answered as a
// duplicate, in any pattern.
module TrustSecStore {
  import opened Objects

  datatype Store = Store(
    sgts: seq<Object>, hiddenSgts: seq<Object>,
    sgacls: seq<Object>, hiddenSgacls: seq<Object>,
    cells: seq<Object>)

  datatype Collection = Sgts | Sgacls_ | Cells

  // How a deployment answers a create. It mints the id it accepts under.
  datatype Answer = Accept(id: string) | Duplicate | Refuse

  datatype Reply = Landed | AlreadyThere | Refused

  predicate HoldsId(objs: seq<Object>, id: string) {
    exists o :: o in objs && Text(o, Id) == id
  }

  // The ids a cell refers to.
  predicate CellMentions(cell: Object, id: string) {
    || Text(cell, SourceSgtId) == id
    || Text(cell, DestinationSgtId) == id
    || id in NameList(cell, Sgacls)
  }

  // An id the deployment has never stored: neither held by an object nor
  // referred to by one. Only such an id is minted.
  predicate Unused(st: Store, id: string) {
    && id != ""
    && !HoldsId(st.sgts, id) && !HoldsId(st.hiddenSgts, id)
    && !HoldsId(st.sgacls, id) && !HoldsId(st.hiddenSgacls, id)
    && !HoldsId(st.cells, id)
    && (forall c :: c in st.cells ==> !CellMentions(c, id))
  }

  function Stored(body: Object, id: string): Object {
    body[Id := Str(id)]
  }

  // The reply and the collections after one create. An acceptance under an id
  // already in use is not one a deployment gives; it counts as a refusal.
  function ReplyTo(st: Store, a: Answer): Reply {
    match a
    case Accept(id) => if Unused(st, id) then Landed else Refused
    case Duplicate => AlreadyThere
    case Refuse => Refused
  }

  function After(st: Store, where: Collection, body: Object, a: Answer): Store {
    if ReplyTo(st, a) != Landed then st else
    match where
    case Sgts => st.(sgts := st.sgts + [Stored(body, a.id)])
    case Sgacls_ => st.(sgacls := st.sgacls + [Stored(body, a.id)])
    case Cells => st.(cells := st.cells + [Stored(body, a.id)])
  }

  // ---------------------------------------------------------------------------
  // Identity. Within the groups, and within the SGACLs, listed or hidden, an id
  // names one object.

  ghost predicate DistinctIds(objs: seq<Object>) {
    && (forall i :: 0 <= i < |objs| ==> Text(objs[i], Id) != "")
    && (forall i, j :: 0 <= i < j < |objs| ==> Text(objs[i], Id) != Text(objs[j], Id))
  }

  ghost predicate Valid(st: Store) {
    DistinctIds(st.sgts + st.hiddenSgts) && DistinctIds(st.sgacls + st.hiddenSgacls)
  }

  // ---------------------------------------------------------------------------
  // Lookups. Every index the program builds keeps the last object under a key.

  function IndexByName(objs: seq<Object>): map<string, Object> {
    if objs == [] then map[]
    else IndexByName(objs[..|objs| - 1])[Text(objs[|objs| - 1], Name) := objs[|objs| - 1]]
  }

  function IdByName(objs: seq<Object>): map<string, string> {
    if objs == [] then map[]
    else IdByName(objs[..|objs| - 1])[Text(objs[|objs| - 1], Name) := Text(objs[|objs| - 1], Id)]
  }

  function NameById(objs: seq<Object>): map<string, string> {
    if objs == [] then map[]
    else NameById(objs[..|objs| - 1])[Text(objs[|objs| - 1], Id) := Text(objs[|objs| - 1], Name)]
  }

  method StubsByName(objs: seq<Object>) returns (m: map<string, string>)
    ensures m == IdByName(objs)
  {
    m := map[];
    for i := 0 to |objs|
      invariant m == IdByName(objs[..i])
    {
      assert objs[..i + 1][..i] == objs[..i];
      m := m[Text(objs[i], Name) := Text(objs[i], Id)];
    }
    assert objs[..|objs|] == objs;
  }

  // The name behind an id: from the objects already read, else from a read by
  // id, else the id itself.
  function Resolve(listed: seq<Object>, hidden: seq<Object>, id: string): string {
    if id in NameById(listed) then NameById(listed)[id]
    else if id in NameById(hidden) && NameById(hidden)[id] != "" then NameById(hidden)[id]
    else id
  }

  predicate Resolves(listed: seq<Object>, hidden: seq<Object>, id: string) {
    id in NameById(listed) || (id in NameById(hidden) && NameById(hidden)[id] != "")
  }

  function SgtName(st: Store, id: string): string { Resolve(st.sgts, st.hiddenSgts, id) }
  function SgaclName(st: Store, id: string): string { Resolve(st.sgacls, st.hiddenSgacls, id) }

  function SgaclNamesOf(st: Store, ids: seq<string>): (names: seq<string>)
    ensures |names| == |ids|
    ensures forall i :: 0 <= i < |ids| ==> names[i] == SgaclName(st, ids[i])
  {
    seq(|ids|, i requires 0 <= i < |ids| => SgaclName(st, ids[i]))
  }

  function NamesIn(objs: seq<Object>): set<string> {
    set o | o in objs :: Text(o, Name)
  }

  lemma {:induction false} IndexKeys(objs: seq<Object>)
    ensures IndexByName(objs).Keys == NamesIn(objs)
    ensures IdByName(objs).Keys == NamesIn(objs)
  {
    if objs != [] {
      var n := |objs| - 1;
      IndexKeys(objs[..n]);
      assert objs == objs[..n] + [objs[n]];
      assert NamesIn(objs) == NamesIn(objs[..n]) + {Text(objs[n], Name)};
    }
  }

  // The id indexed under a name is the id of a listed object of that name.
  lemma {:induction false} IdOfName(objs: seq<Object>, name: string)
    requires name in IdByName(objs)
    ensures exists o :: o in objs && Text(o, Name) == name && Text(o, Id) == IdByName(objs)[name]
  {
    var n := |objs| - 1;
    if Text(objs[n], Name) != name {
      IdOfName(objs[..n], name);
      assert forall o :: o in objs[..n] ==> o in objs;
    } else {
      assert objs[n] in objs;
    }
  }

  lemma {:induction false} NameByIdKeys(objs: seq<Object>, id: string)
    ensures id in NameById(objs) <==> HoldsId(objs, id)
  {
    if objs != [] {
      var n := |objs| - 1;
      NameByIdKeys(objs[..n], id);
      assert objs == objs[..n] + [objs[n]];
      assert forall o :: o in objs <==> o in objs[..n] || o == objs[n];
    }
  }

  lemma {:induction false} NameOfUniqueId(objs: seq<Object>, o: Object)
    requires forall i, j :: 0 <= i < j < |objs| ==> Text(objs[i], Id) != Text(objs[j], Id)
    requires o in objs
    ensures Text(o, Id) in NameById(objs) && NameById(objs)[Text(o, Id)] == Text(o, Name)
  {
    var n := |objs| - 1;
    if o != objs[n] {
      var i :| 0 <= i < n && objs[i] == o;
      assert objs[..n][i] == o;
      NameOfUniqueId(objs[..n], o);
      assert Text(objs[i], Id) != Text(objs[n], Id);
    }
  }

  // A listed object's id resolves to its name.
  lemma ResolveListed(listed: seq<Object>, hidden: seq<Object>, o: Object)
    requires DistinctIds(listed + hidden) && o in listed
    ensures Resolve(listed, hidden, Text(o, Id)) == Text(o, Name)
  {
    forall i, j | 0 <= i < j < |listed|
      ensures Text(listed[i], Id) != Text(listed[j], Id)
    {
      assert (listed + hidden)[i] == listed[i] && (listed + hidden)[j] == listed[j];
    }
    NameOfUniqueId(listed, o);
  }

  // What an id is read as: the name of the listed object under it; for want of one,
  // of the object a read by id returns, if it has one; and else the id itself.
  lemma ResolveIs(listed: seq<Object>, hidden: seq<Object>, id: string)
    requires DistinctIds(listed + hidden)
    ensures forall o :: o in listed && Text(o, Id) == id ==> Resolve(listed, hidden, id) == Text(o, Name)
    ensures forall o :: o in hidden && Text(o, Id) == id ==>
              Resolve(listed, hidden, id) == if Text(o, Name) != "" then Text(o, Name) else id
    ensures !HoldsId(listed, id) && !HoldsId(hidden, id) ==> Resolve(listed, hidden, id) == id
  {
    hide Text, NameById;
    NameByIdKeys(listed, id);
    NameByIdKeys(hidden, id);
    forall o | o in listed && Text(o, Id) == id
      ensures Resolve(listed, hidden, id) == Text(o, Name)
    {
      ResolveListed(listed, hidden, o);
    }
    forall o | o in hidden && Text(o, Id) == id
      ensures !HoldsId(listed, id) && id in NameById(hidden) && NameById(hidden)[id] == Text(o, Name)
    {
      HiddenAlone(listed, hidden, o);
    }
  }

  lemma HiddenAlone(listed: seq<Object>, hidden: seq<Object>, o: Object)
    requires DistinctIds(listed + hidden) && o in hidden
    ensures !HoldsId(listed, Text(o, Id))
    ensures Text(o, Id) in NameById(hidden) && NameById(hidden)[Text(o, Id)] == Text(o, Name)
  {
    hide Text, NameById;
    var all, n := listed + hidden, |listed|;
    var j :| 0 <= j < |hidden| && hidden[j] == o;
    assert all[n + j] == o;
    forall i, l | 0 <= i < l < |hidden|
      ensures Text(hidden[i], Id) != Text(hidden[l], Id)
    {
      assert all[n + i] == hidden[i] && all[n + l] == hidden[l];
    }
    NameOfUniqueId(hidden, o);
    forall x | x in listed
      ensures Text(x, Id) != Text(o, Id)
    {
      var i :| 0 <= i < n && listed[i] == x;
      assert all[i] == x;
    }
  }

  // Growing a collection by objects that do not hold an id leaves what that id
  // resolves to as it was.
  lemma {:induction false} NameByIdGrows(objs: seq<Object>, more: seq<Object>, id: string)
    requires !HoldsId(more, id)
    ensures (id in NameById(objs + more)) == (id in NameById(objs))
    ensures id in NameById(objs) ==> NameById(objs + more)[id] == NameById(objs)[id]
  {
    if more == [] {
      assert objs + more == objs;
    } else {
      var n := |more| - 1;
      assert (objs + more)[..|objs| + n] == objs + more[..n];
      assert more[n] in more;
      assert forall o :: o in more[..n] ==> o in more;
      NameByIdGrows(objs, more[..n], id);
    }
  }
}
