// Decoded JSON objects, as both APIs of a deployment return them and as a
// bundle carries them, with the accessors every component uses.
module Objects {

  // The property names the program reads or writes by name. Every other
  // property travels untouched as `Other`.
  datatype Key =
    | Id | Name | Link | Kind | Description | GenerationId | MatrixId | TagValue
    | SourceSgtId | DestinationSgtId | SourceSgtName | DestinationSgtName
    | Sgacls | SgaclNames | DefaultRule | MatrixCellStatus
    | ConditionType | Children | DictionaryName | AttributeName | ConditionPath
    | Mac | GroupId | GroupName | ProfileId | ProfileName | Profile
    | StaticGroup | StaticProfile
    | Other(text: string)

  datatype Json =
    | Null
    | Bool(b: bool)
    | Num(n: real)
    | Str(s: string)
    | Arr(elems: seq<Json>)
    | Obj(fields: Object)

  type Object = map<Key, Json>

  datatype Option<+T> = None | Some(value: T)

  // The string under a key, or "" when there is none.
  function Text(o: Object, k: Key): string {
    if k in o && o[k].Str? then o[k].s else ""
  }

  predicate Truthy(o: Object, k: Key) {
    k in o && (o[k] == Bool(true) || (o[k].Str? && EqualFoldTrue(o[k].s)))
  }

  predicate EqualFoldTrue(s: string) {
    |s| == 4 && s[0] in "tT" && s[1] in "rR" && s[2] in "uU" && s[3] in "eE"
  }

  // The nonempty strings of a list, in order.
  function Strings(vs: seq<Json>): (names: seq<string>)
    ensures "" !in names
  {
    if vs == [] then []
    else (if vs[0].Str? && vs[0].s != "" then [vs[0].s] else []) + Strings(vs[1..])
  }

  function NameList(o: Object, k: Key): (names: seq<string>)
    ensures "" !in names
  {
    if k in o && o[k].Arr? then Strings(o[k].elems) else []
  }

  function AsList(names: seq<string>): seq<Json> {
    seq(|names|, i requires 0 <= i < |names| => Str(names[i]))
  }

  lemma {:induction false} StringsOfList(names: seq<string>)
    requires "" !in names
    ensures Strings(AsList(names)) == names
  {
    if names != [] {
      assert AsList(names)[1..] == AsList(names[1..]);
      StringsOfList(names[1..]);
    }
  }

  // ---------------------------------------------------------------------------
  // Nulls. A create body never carries one: not at the top, not inside a nested
  // object, not as an element of a list, and not inside an object that is an
  // element of a list. A list directly inside a list is not looked into.

  function WithoutNulls(v: Json): Json
    decreases v, 1
  {
    match v
    case Obj(f) => Obj(map k | k in f && f[k] != Null :: WithoutNulls(f[k]))
    case Arr(es) => Arr(ElementsWithoutNulls(es))
    case _ => v
  }

  function ElementsWithoutNulls(es: seq<Json>): seq<Json>
    decreases es, 0
  {
    if es == [] then []
    else (match es[0]
          case Null => []
          case Obj(f) => [WithoutNulls(es[0])]
          case _ => [es[0]]) + ElementsWithoutNulls(es[1..])
  }

  function Compact(o: Object): Object {
    map k | k in o && o[k] != Null :: WithoutNulls(o[k])
  }

  // Compacting loses no string and invents none.
  lemma CompactKeepsText(o: Object, k: Key)
    ensures Text(Compact(o), k) == Text(o, k)
  {
  }

  lemma {:induction false} ElementsKeepStrings(es: seq<Json>)
    ensures Strings(ElementsWithoutNulls(es)) == Strings(es)
  {
    if es != [] {
      ElementsKeepStrings(es[1..]);
      var rest := ElementsWithoutNulls(es[1..]);
      assert ElementsWithoutNulls(es) == rest || ElementsWithoutNulls(es)[1..] == rest;
    }
  }

  lemma CompactKeepsNames(o: Object, k: Key)
    ensures NameList(Compact(o), k) == NameList(o, k)
  {
    if k in o && o[k].Arr? {
      ElementsKeepStrings(o[k].elems);
    }
  }

  // ---------------------------------------------------------------------------
  // Self-references. A `link` means nothing outside its own deployment and is
  // removed at every depth.

  function WithoutLinks(v: Json): Json
    decreases v
  {
    match v
    case Obj(f) => Obj(map k | k in f && k != Link :: WithoutLinks(f[k]))
    case Arr(es) => Arr(seq(|es|, i requires 0 <= i < |es| => WithoutLinks(es[i])))
    case _ => v
  }

  // The portable form of an object: its own id and every link gone.
  function StripLocal(o: Object): Object {
    map k | k in o && k != Id && k != Link :: WithoutLinks(o[k])
  }

  lemma StripKeepsText(o: Object, k: Key)
    requires k != Id && k != Link
    ensures Text(StripLocal(o), k) == Text(o, k)
  {
  }

  lemma {:induction false} LinksKeepStrings(es: seq<Json>)
    ensures Strings(seq(|es|, i requires 0 <= i < |es| => WithoutLinks(es[i]))) == Strings(es)
  {
    var ws := seq(|es|, i requires 0 <= i < |es| => WithoutLinks(es[i]));
    if es != [] {
      LinksKeepStrings(es[1..]);
      assert ws[1..] == seq(|es[1..]|, i requires 0 <= i < |es[1..]| => WithoutLinks(es[1..][i]));
    }
  }

  lemma StripKeepsNames(o: Object, k: Key)
    requires k != Id && k != Link
    ensures NameList(StripLocal(o), k) == NameList(o, k)
  {
    if k in o && o[k].Arr? {
      LinksKeepStrings(o[k].elems);
    }
  }
}
