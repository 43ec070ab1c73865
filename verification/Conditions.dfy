// Condition trees: cleaned on export, checked before an import, and rewritten
// to the target's ids when a set or a rule is sent.
module Conditions {
  import opened Objects

  const REFERENCE := "ConditionReference"
  const ATTRIBUTES := "ConditionAttributes"
  const LIBRARY_ATTRIBUTES := "LibraryConditionAttributes"

  // What a bundle may name, as pre-flight sees the target after this run. An
  // attribute set is known only for the dictionaries that could be read.
  datatype Env = Env(
    services: set<string>, groups: set<string>, stores: set<string>, profiles: set<string>,
    conditions: set<string>, dictionaries: set<string>, attributes: map<string, set<string>>)

  datatype Finding =
    | Fine
    | NoService(name: string)
    | NoStore(name: string)
    | NoProfile(name: string)
    | NoGroup(name: string)
    | NoCondition(name: string)
    | NoDictionary(name: string)
    | NoAttribute(name: string, attribute: string)

  predicate Named(node: Object) {
    Text(node, ConditionType) == REFERENCE && Text(node, Name) != ""
  }

  // --- the three passes -------------------------------------------------------

  function Clean(v: Json): Json
    decreases v
  {
    if !v.Obj? then v
    else
      var node := v.fields - {Id, Link};
      if Children in v.fields && v.fields[Children].Arr? then
        var es := v.fields[Children].elems;
        Obj(node[Children := Arr(seq(|es|, i requires 0 <= i < |es| => Clean(es[i])))])
      else Obj(node)
  }

  function CheckNode(node: Object, env: Env): Finding {
    var kind := Text(node, ConditionType);
    if kind == REFERENCE then
      if Text(node, Name) != "" && Text(node, Name) !in env.conditions then NoCondition(Text(node, Name)) else Fine
    else if kind == ATTRIBUTES || kind == LIBRARY_ATTRIBUTES then
      var dict, attr := Text(node, DictionaryName), Text(node, AttributeName);
      if dict == "" then Fine
      else if dict !in env.dictionaries then NoDictionary(dict)
      else if attr != "" && dict in env.attributes && attr !in env.attributes[dict] then NoAttribute(dict, attr)
      else Fine
    else Fine
  }

  // The first thing a tree names that the target will not have.
  function Check(v: Json, env: Env): Finding
    decreases v, 1
  {
    if !v.Obj? then Fine
    else if CheckNode(v.fields, env) != Fine then CheckNode(v.fields, env)
    else if Children in v.fields && v.fields[Children].Arr? then CheckAll(v.fields[Children].elems, env)
    else Fine
  }

  function CheckAll(es: seq<Json>, env: Env): Finding
    decreases es, 0
  {
    if es == [] then Fine
    else if Check(es[0], env) != Fine then Check(es[0], env)
    else CheckAll(es[1..], env)
  }

  // ids: the target's condition ids by name, at apply time.
  function RewriteNode(node: Object, ids: map<string, string>): Object {
    if Named(node) && Text(node, Name) in ids && ids[Text(node, Name)] != "" then
      node[Id := Str(ids[Text(node, Name)])]
    else node
  }

  function Rewrite(v: Json, ids: map<string, string>): Json
    decreases v
  {
    if !v.Obj? then v
    else
      var node := RewriteNode(v.fields, ids);
      if Children in v.fields && v.fields[Children].Arr? then
        var es := v.fields[Children].elems;
        Obj(node[Children := Arr(seq(|es|, i requires 0 <= i < |es| => Rewrite(es[i], ids)))])
      else Obj(node)
  }

  // --- what a rewritten tree is ------------------------------------------------

  // At every depth a named reference carries exactly the target's id for its
  // name, and no other node carries an id or a link of any deployment.
  ghost predicate Grounded(v: Json, ids: map<string, string>)
    decreases v
  {
    v.Obj? ==>
      && Link !in v.fields
      && (if Named(v.fields) then
            && Text(v.fields, Name) in ids && ids[Text(v.fields, Name)] != ""
            && Id in v.fields && v.fields[Id] == Str(ids[Text(v.fields, Name)])
          else Id !in v.fields)
      && (Children in v.fields && v.fields[Children].Arr? ==>
            forall i :: 0 <= i < |v.fields[Children].elems| ==> Grounded(v.fields[Children].elems[i], ids))
  }

  // Every name the tree refers to, at any depth, has an id on the target.
  ghost predicate NamesHaveIds(v: Json, ids: map<string, string>)
    decreases v
  {
    v.Obj? ==>
      && (Named(v.fields) ==> Text(v.fields, Name) in ids && ids[Text(v.fields, Name)] != "")
      && (Children in v.fields && v.fields[Children].Arr? ==>
            forall i :: 0 <= i < |v.fields[Children].elems| ==> NamesHaveIds(v.fields[Children].elems[i], ids))
  }

  lemma {:induction false} CheckAllFine(es: seq<Json>, env: Env)
    ensures CheckAll(es, env) == Fine <==> forall i :: 0 <= i < |es| ==> Check(es[i], env) == Fine
  {
    if es != [] {
      CheckAllFine(es[1..], env);
      assert forall i :: 0 < i < |es| ==> es[i] == es[1..][i - 1];
    }
  }

  lemma {:induction false} CheckedNamesHaveIds(v: Json, env: Env, ids: map<string, string>)
    requires Check(v, env) == Fine
    requires forall n :: n in env.conditions ==> n in ids && ids[n] != ""
    ensures NamesHaveIds(v, ids)
    decreases v
  {
    if v.Obj? && Children in v.fields && v.fields[Children].Arr? {
      var es := v.fields[Children].elems;
      CheckAllFine(es, env);
      forall i | 0 <= i < |es|
        ensures NamesHaveIds(es[i], ids)
      {
        CheckedNamesHaveIds(es[i], env, ids);
      }
    }
  }

  lemma CleanReads(v: Json, k: Key)
    requires v.Obj? && k !in {Id, Link, Children}
    ensures Clean(v).Obj? && Text(Clean(v).fields, k) == Text(v.fields, k)
  {
  }

  // Cleaning loses nothing a name check or a rewrite looks at.
  lemma {:induction false} CleanKeepsNames(v: Json, ids: map<string, string>)
    ensures NamesHaveIds(Clean(v), ids) == NamesHaveIds(v, ids)
    decreases v
  {
    if v.Obj? {
      CleanReads(v, ConditionType);
      CleanReads(v, Name);
      if Children in v.fields && v.fields[Children].Arr? {
        var es := v.fields[Children].elems;
        var cs := Clean(v).fields[Children].elems;
        assert |cs| == |es| && forall i :: 0 <= i < |es| ==> cs[i] == Clean(es[i]);
        forall i | 0 <= i < |es|
          ensures NamesHaveIds(cs[i], ids) == NamesHaveIds(es[i], ids)
        {
          CleanKeepsNames(es[i], ids);
        }
      }
    }
  }

  // A cleaned tree, rewritten: grounded exactly when every name it refers to has
  // an id on the target.
  lemma {:induction false} RewriteGrounds(v: Json, ids: map<string, string>)
    ensures Grounded(Rewrite(Clean(v), ids), ids) <==> NamesHaveIds(v, ids)
    decreases v
  {
    if v.Obj? {
      var c := Clean(v).fields;
      CleanReads(v, ConditionType);
      CleanReads(v, Name);
      var r := Rewrite(Clean(v), ids).fields;
      assert Link !in r;
      assert Named(r) == Named(v.fields) && Text(r, Name) == Text(v.fields, Name);
      if Children in v.fields && v.fields[Children].Arr? {
        var es := v.fields[Children].elems;
        var rs := r[Children].elems;
        assert forall i :: 0 <= i < |es| ==> rs[i] == Rewrite(Clean(es[i]), ids);
        forall i | 0 <= i < |es|
          ensures Grounded(rs[i], ids) <==> NamesHaveIds(es[i], ids)
        {
          RewriteGrounds(es[i], ids);
        }
      }
    }
  }

  // Cleaning what was rewritten gives back the cleaned tree: a rewrite adds
  // nothing but ids.
  lemma {:induction false} CleanUndoesRewrite(v: Json, ids: map<string, string>)
    ensures Clean(Rewrite(Clean(v), ids)) == Clean(v)
    decreases v
  {
    if v.Obj? {
      var c := Clean(v).fields;
      var r := Rewrite(Clean(v), ids).fields;
      if Children in v.fields && v.fields[Children].Arr? {
        var es := v.fields[Children].elems;
        forall i | 0 <= i < |es|
          ensures Clean(Rewrite(Clean(es[i]), ids)) == Clean(es[i])
        {
          CleanUndoesRewrite(es[i], ids);
        }
        assert Clean(Rewrite(Clean(v), ids)).fields[Children].elems == c[Children].elems;
      }
      assert Clean(Rewrite(Clean(v), ids)).fields == c;
    }
  }

  lemma CheckNodeReads(a: Object, b: Object, env: Env)
    requires forall k :: k != Id && k != Children ==> Text(a, k) == Text(b, k)
    ensures CheckNode(a, env) == CheckNode(b, env)
  {
    hide Text;
  }

  lemma RewriteReads(v: Json, ids: map<string, string>)
    requires v.Obj?
    ensures forall k :: k != Id && k != Children ==> Text(Rewrite(v, ids).fields, k) == Text(v.fields, k)
  {
  }

  // Rewriting works on the report's own objects. It changes no later verdict.
  lemma {:induction false} RewriteKeepsVerdict(v: Json, ids: map<string, string>, env: Env)
    ensures Check(Rewrite(v, ids), env) == Check(v, env)
    decreases v, 1
  {
    hide CheckNode, Text;
    if v.Obj? {
      RewriteReads(v, ids);
      CheckNodeReads(Rewrite(v, ids).fields, v.fields, env);
      if Children in v.fields && v.fields[Children].Arr? {
        RewritesKeepVerdict(v.fields[Children].elems, ids, env);
      }
    }
  }

  lemma {:induction false} RewritesKeepVerdict(es: seq<Json>, ids: map<string, string>, env: Env)
    ensures CheckAll(seq(|es|, i requires 0 <= i < |es| => Rewrite(es[i], ids)), env) == CheckAll(es, env)
    decreases es, 0
  {
    if es != [] {
      var rs := seq(|es|, i requires 0 <= i < |es| => Rewrite(es[i], ids));
      assert rs[1..] == seq(|es[1..]|, i requires 0 <= i < |es[1..]| => Rewrite(es[1..][i], ids));
      RewriteKeepsVerdict(es[0], ids, env);
      RewritesKeepVerdict(es[1..], ids, env);
    }
  }

  // Cleaning leaves a cleaned tree alone.
  lemma {:induction false} CleanTwice(v: Json)
    ensures Clean(Clean(v)) == Clean(v)
    decreases v
  {
    if v.Obj? && Children in v.fields && v.fields[Children].Arr? {
      var es := v.fields[Children].elems;
      var c := Clean(v).fields;
      forall i | 0 <= i < |es|
        ensures Clean(c[Children].elems[i]) == Clean(es[i])
      {
        CleanTwice(es[i]);
      }
      assert Clean(Clean(v)).fields[Children].elems == c[Children].elems;
      assert Clean(Clean(v)).fields == c;
    }
  }

  // A tree pre-flight accepted arrives grounded: when every condition it counted
  // on has an id by the time the set is sent, each named reference at any depth
  // carries the target's id and no source id is left anywhere.
  lemma AcceptedTreesArriveGrounded(source: Json, env: Env, ids: map<string, string>)
    requires Check(Clean(source), env) == Fine
    requires forall n :: n in env.conditions ==> n in ids && ids[n] != ""
    ensures Grounded(Rewrite(Clean(source), ids), ids)
    ensures Clean(Rewrite(Clean(source), ids)) == Clean(source)
  {
    CheckedNamesHaveIds(Clean(source), env, ids);
    CleanKeepsNames(source, ids);
    RewriteGrounds(source, ids);
    CleanUndoesRewrite(source, ids);
  }

  // --- when the target can name less -------------------------------------------

  ghost predicate Within(later: Env, earlier: Env) {
    && later.services <= earlier.services && later.groups <= earlier.groups
    && later.stores <= earlier.stores && later.profiles <= earlier.profiles
    && later.conditions <= earlier.conditions && later.dictionaries <= earlier.dictionaries
    && (forall d :: d in earlier.attributes ==> d in later.attributes && later.attributes[d] <= earlier.attributes[d])
  }

  lemma {:induction false} CheckMonotone(v: Json, later: Env, earlier: Env)
    requires Within(later, earlier) && Check(v, later) == Fine
    ensures Check(v, earlier) == Fine
    decreases v
  {
    if v.Obj? && Children in v.fields && v.fields[Children].Arr? {
      var es := v.fields[Children].elems;
      CheckAllFine(es, later);
      CheckAllFine(es, earlier);
      forall i | 0 <= i < |es|
        ensures Check(es[i], earlier) == Fine
      {
        CheckMonotone(es[i], later, earlier);
      }
    }
  }
}
