// What cleaning, rewriting and checking do to a condition tree, node by node.
module ConditionPaths {
  import opened Objects
  import opened Conditions

  // The node reached by following children by their places.
  function NodeAt(v: Json, path: seq<nat>): Option<Object> {
    if !v.Obj? then None
    else if path == [] then Some(v.fields)
    else if Children in v.fields && v.fields[Children].Arr? && path[0] < |v.fields[Children].elems| then
      NodeAt(v.fields[Children].elems[path[0]], path[1..])
    else None
  }

  function Under(v: Json, i: nat): Json
    requires v.Obj? && Children in v.fields && v.fields[Children].Arr? && i < |v.fields[Children].elems|
  {
    v.fields[Children].elems[i]
  }

  // As many children in the same places; what is no node is as it was.
  predicate SameShape(a: Json, b: Json) {
    if a.Arr? then
      && b.Arr? && |b.elems| == |a.elems|
      && forall i :: 0 <= i < |a.elems| && !a.elems[i].Obj? ==> b.elems[i] == a.elems[i]
    else b == a
  }

  // b is a but for its id and its link, its children node by node.
  ghost predicate Cleaned(a: Object, b: Object) {
    && (forall k :: k in b <==> k in a && k != Id && k != Link)
    && (forall k :: k in b && k != Children ==> b[k] == a[k])
    && (Children in a ==> SameShape(a[Children], b[Children]))
  }

  // Cleaning takes the id and the link of every node, at any depth, and nothing else.
  lemma {:induction false} CleanAt(v: Json, path: seq<nat>)
    ensures NodeAt(Clean(v), path).Some? <==> NodeAt(v, path).Some?
    ensures NodeAt(v, path).Some? ==> Cleaned(NodeAt(v, path).value, NodeAt(Clean(v), path).value)
    decreases |path|
  {
    if v.Obj? && path != [] && Children in v.fields && v.fields[Children].Arr? && path[0] < |v.fields[Children].elems| {
      CleanAt(Under(v, path[0]), path[1..]);
    }
  }

  // b is a with the target's id when it is a named reference the target has one
  // for, and else as it was.
  ghost predicate Rewritten(a: Object, b: Object, ids: map<string, string>) {
    && (forall k :: k in b && k != Children && k != Id ==> k in a && b[k] == a[k])
    && (forall k :: k in a ==> k in b)
    && (Children in a ==> SameShape(a[Children], b[Children]))
    && (Children in b ==> Children in a)
    && (if Text(a, ConditionType) == "ConditionReference" && Text(a, Name) != ""
           && Text(a, Name) in ids && ids[Text(a, Name)] != "" then
          Id in b && b[Id] == Str(ids[Text(a, Name)])
        else (Id in b <==> Id in a) && (Id in a ==> b[Id] == a[Id]))
  }

  lemma {:induction false} RewriteAt(v: Json, path: seq<nat>, ids: map<string, string>)
    ensures NodeAt(Rewrite(v, ids), path).Some? <==> NodeAt(v, path).Some?
    ensures NodeAt(v, path).Some? ==> Rewritten(NodeAt(v, path).value, NodeAt(Rewrite(v, ids), path).value, ids)
    decreases |path|
  {
    if v.Obj? && path != [] && Children in v.fields && v.fields[Children].Arr? && path[0] < |v.fields[Children].elems| {
      RewriteAt(Under(v, path[0]), path[1..], ids);
    }
  }

  // --- checking ---------------------------------------------------------------------------

  // What the node names is there, or nobody can tell.
  ghost predicate NodeResolves(node: Object, env: Env) {
    var kind, name, dict, attr := Text(node, ConditionType), Text(node, Name), Text(node, DictionaryName),
                                  Text(node, AttributeName);
    && (kind == "ConditionReference" && name != "" ==> name in env.conditions)
    && (kind in ["ConditionAttributes", "LibraryConditionAttributes"] && dict != "" ==>
          && dict in env.dictionaries
          && (attr != "" && dict in env.attributes ==> attr in env.attributes[dict]))
  }

  ghost predicate Resolves(v: Json, env: Env) {
    forall path :: NodeAt(v, path).Some? ==> NodeResolves(NodeAt(v, path).value, env)
  }

  lemma CheckNodeExactly(node: Object, env: Env)
    ensures CheckNode(node, env) == Fine <==> NodeResolves(node, env)
  {
    hide Text;
  }

  lemma Below(v: Json, i: nat, path: seq<nat>)
    requires v.Obj? && Children in v.fields && v.fields[Children].Arr? && i < |v.fields[Children].elems|
    ensures NodeAt(v, [i] + path) == NodeAt(Under(v, i), path)
  {
    assert ([i] + path)[1..] == path;
  }

  // A tree is accepted if and only if every node of it, at any depth, resolves.
  lemma {:induction false} CheckExactly(v: Json, env: Env)
    ensures Check(v, env) == Fine <==> Resolves(v, env)
    decreases v
  {
    hide CheckNode, NodeResolves, Resolves;
    if v.Obj? {
      CheckNodeExactly(v.fields, env);
      if Children in v.fields && v.fields[Children].Arr? {
        var es := v.fields[Children].elems;
        CheckAllFine(es, env);
        forall i | 0 <= i < |es|
          ensures Check(es[i], env) == Fine <==> Resolves(es[i], env)
        {
          CheckExactly(es[i], env);
        }
      }
    }
    ResolvesByParts(v, env);
  }

  ghost predicate ResolvesInParts(v: Json, env: Env) {
    v.Obj? ==>
      && NodeResolves(v.fields, env)
      && (Children in v.fields && v.fields[Children].Arr? ==>
            forall i :: 0 <= i < |v.fields[Children].elems| ==> Resolves(v.fields[Children].elems[i], env))
  }

  lemma ResolvesByParts(v: Json, env: Env)
    ensures Resolves(v, env) <==> ResolvesInParts(v, env)
  {
    hide NodeResolves;
    if Resolves(v, env) && v.Obj? {
      assert NodeAt(v, []) == Some(v.fields);
      if Children in v.fields && v.fields[Children].Arr? {
        var es := v.fields[Children].elems;
        forall i: nat, path | i < |es| && NodeAt(es[i], path).Some?
          ensures NodeResolves(NodeAt(es[i], path).value, env)
        {
          Below(v, i, path);
        }
      }
    }
    if ResolvesInParts(v, env) {
      forall path | NodeAt(v, path).Some?
        ensures NodeResolves(NodeAt(v, path).value, env)
      {
        if path != [] {
          assert Resolves(v.fields[Children].elems[path[0]], env);
          assert NodeAt(v, path) == NodeAt(v.fields[Children].elems[path[0]], path[1..]);
        }
      }
    }
  }

  // The finding about a node.
  ghost predicate Blames(f: Finding, node: Object) {
    match f
    case NoCondition(n) => Text(node, ConditionType) == "ConditionReference" && n == Text(node, Name)
    case NoDictionary(d) => d == Text(node, DictionaryName)
    case NoAttribute(d, a) => d == Text(node, DictionaryName) && a == Text(node, AttributeName)
    case _ => false
  }

  // What a refused tree is refused for is a node of it, and one that does not resolve.
  lemma {:induction false} FindingIsReal(v: Json, env: Env) returns (path: seq<nat>)
    requires Check(v, env) != Fine
    ensures NodeAt(v, path).Some? && !NodeResolves(NodeAt(v, path).value, env)
    ensures Blames(Check(v, env), NodeAt(v, path).value)
    decreases v, 1
  {
    hide Text;
    CheckNodeExactly(v.fields, env);
    if CheckNode(v.fields, env) != Fine {
      path := [];
    } else {
      hide NodeResolves, CheckNode, Blames;
      var i, rest := FindingAmong(v.fields[Children].elems, env);
      Below(v, i, rest);
      path := [i] + rest;
    }
  }

  lemma {:induction false} FindingAmong(es: seq<Json>, env: Env) returns (i: nat, path: seq<nat>)
    requires CheckAll(es, env) != Fine
    ensures i < |es| && CheckAll(es, env) == Check(es[i], env)
    ensures NodeAt(es[i], path).Some? && !NodeResolves(NodeAt(es[i], path).value, env)
    ensures Blames(Check(es[i], env), NodeAt(es[i], path).value)
    decreases es, 0
  {
    hide Text, NodeResolves, CheckNode, Blames;
    if Check(es[0], env) != Fine {
      i := 0;
      path := FindingIsReal(es[0], env);
    } else {
      i, path := FindingAmong(es[1..], env);
      i := i + 1;
    }
  }
}
