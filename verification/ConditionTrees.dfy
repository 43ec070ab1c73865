// Condition trees as the program holds them: shared objects, rewritten in place. A
// node may be reached more than once; what is below a node never leads back to it.
module ConditionTrees {
  import opened Objects
  import opened Conditions

  datatype Kid = Leaf(v: Json) | Branch(node: Node)

  // One node. Its shape is fixed; its properties are assigned in place.
  class Node {
    var fields: Object          // every property but a list of children
    const kids: Option<seq<Kid>>
    ghost const repr: set<Node> // this node and every node below it

    constructor (fields: Object, kids: Option<seq<Kid>>, ghost below: set<Node>)
      ensures this.fields == fields && this.kids == kids && repr == {this} + below
    {
      this.fields, this.kids := fields, kids;
      repr := {this} + below;
    }
  }

  predicate HasBranch(n: Node, i: int) { n.kids.Some? && 0 <= i < |n.kids.value| && n.kids.value[i].Branch? }

  // What is below a node are its children and what is below them.
  ghost predicate Acyclic(n: Node)
    decreases n.repr
  {
    && n in n.repr
    && (forall i :: HasBranch(n, i) ==>
          var m := n.kids.value[i].node;
          m.repr < n.repr && n !in m.repr && Acyclic(m))
    && (forall m :: m in n.repr && m != n ==> exists i :: HasBranch(n, i) && m in n.kids.value[i].node.repr)
  }

  // What the nodes hold at one moment.
  type Contents = map<Node, Object>

  ghost function Held(nodes: set<Node>): Contents
    reads nodes
  {
    map m | m in nodes :: m.fields
  }

  // The JSON object a node stands for at that moment.
  ghost function Value(n: Node, at: Contents): Json
    requires Acyclic(n) && n.repr <= at.Keys
    decreases n.repr, 1
  {
    if n.kids.None? then Obj(at[n])
    else Obj(at[n][Children := Arr(KidValues(n, n.kids.value, at))])
  }

  ghost function KidValues(n: Node, ks: seq<Kid>, at: Contents): seq<Json>
    requires Acyclic(n) && n.kids == Some(ks) && n.repr <= at.Keys
    decreases n.repr, 0
  {
    seq(|ks|, i requires 0 <= i < |ks| => if HasBranch(n, i) then Value(ks[i].node, at) else LeafOf(ks[i]))
  }

  function LeafOf(k: Kid): Json { if k.Leaf? then k.v else Null }

  // A leaf child is not an object, and a list of children lives in `kids`.
  ghost predicate Shaped(n: Node, fields: Object) {
    if n.kids.None? then !(Children in fields && fields[Children].Arr?)
    else Children !in fields && forall i :: 0 <= i < |n.kids.value| && n.kids.value[i].Leaf? ==> !n.kids.value[i].v.Obj?
  }

  ghost predicate WellFormed(n: Node, at: Contents)
    requires n.repr <= at.Keys
  {
    forall m :: m in n.repr ==> Shaped(m, at[m])
  }

  lemma RewriteTwice(o: Object, ids: map<string, string>)
    ensures RewriteNode(RewriteNode(o, ids), ids) == RewriteNode(o, ids)
    ensures Children in RewriteNode(o, ids) <==> Children in o
    ensures Children in o ==> RewriteNode(o, ids)[Children] == o[Children]
  {
    var r := RewriteNode(o, ids);
    assert Text(r, ConditionType) == Text(o, ConditionType) && Text(r, Name) == Text(o, Name);
  }

  // Rewrites every named reference in place. A node reached twice is rewritten twice,
  // which is rewriting it once.
  method RewriteInPlace(n: Node, ids: map<string, string>)
    requires Acyclic(n) && WellFormed(n, Held(n.repr))
    modifies n.repr
    ensures WellFormed(n, Held(n.repr))
    ensures Value(n, Held(n.repr)) == Rewrite(Value(n, old(Held(n.repr))), ids)
  {
    ghost var before := Held(n.repr);
    RewriteAll(n, ids);
    RewrittenValue(n, before, Held(n.repr), ids);
  }

  method RewriteAll(n: Node, ids: map<string, string>)
    requires Acyclic(n)
    modifies n.repr
    ensures forall m :: m in n.repr ==> m.fields == RewriteNode(old(m.fields), ids)
    decreases n.repr
  {
    hide RewriteNode, Progress;
    ghost var was := Held(n.repr);
    n.fields := RewriteNode(n.fields, ids);
    ProgressBegins(n, was, Held(n.repr), ids);
    if n.kids.Some? {
      var ks := n.kids.value;
      for i := 0 to |ks|
        invariant Progress(n, i, was, Held(n.repr), ids)
      {
        ghost var at := Held(n.repr);
        if ks[i].Branch? {
          assert HasBranch(n, i);
          RewriteAll(ks[i].node, ids);
        }
        ProgressNext(n, i, was, at, Held(n.repr), ids);
      }
    }
    ProgressEnds(n, was, Held(n.repr), ids);
  }

  // Where the loop stands: the node and what is below its first children has been
  // rewritten, and nothing holds anything but what it held or what that becomes.
  ghost predicate Progress(n: Node, i: nat, was: Contents, at: Contents, ids: map<string, string>) {
    && at.Keys == was.Keys == n.repr && n in at
    && at[n] == RewriteNode(was[n], ids)
    && (forall m :: m in n.repr ==> at[m] == was[m] || at[m] == RewriteNode(was[m], ids))
    && (forall j, m :: 0 <= j < i && HasBranch(n, j) && m in n.kids.value[j].node.repr && m in at ==>
          at[m] == RewriteNode(was[m], ids))
  }

  lemma ProgressBegins(n: Node, was: Contents, at: Contents, ids: map<string, string>)
    requires Acyclic(n) && at.Keys == was.Keys == n.repr
    requires forall m :: m in n.repr ==> at[m] == if m == n then RewriteNode(was[m], ids) else was[m]
    ensures Progress(n, 0, was, at, ids)
  {
    hide RewriteNode;
  }

  lemma ProgressNext(n: Node, i: nat, was: Contents, at: Contents, now: Contents, ids: map<string, string>)
    requires Acyclic(n) && Progress(n, i, was, at, ids) && now.Keys == n.repr
    requires forall m :: m in n.repr ==>
               now[m] == if HasBranch(n, i) && m in n.kids.value[i].node.repr then RewriteNode(at[m], ids) else at[m]
    ensures Progress(n, i + 1, was, now, ids)
  {
    hide RewriteNode;
    forall m | m in n.repr
      ensures RewriteNode(RewriteNode(was[m], ids), ids) == RewriteNode(was[m], ids)
    {
      RewriteTwice(was[m], ids);
    }
  }

  lemma ProgressEnds(n: Node, was: Contents, at: Contents, ids: map<string, string>)
    requires Acyclic(n) && Progress(n, if n.kids.Some? then |n.kids.value| else 0, was, at, ids)
    ensures forall m :: m in n.repr ==> at[m] == RewriteNode(was[m], ids)
  {
    hide RewriteNode;
  }

  ghost function RewriteEach(vs: seq<Json>, ids: map<string, string>): seq<Json> {
    seq(|vs|, i requires 0 <= i < |vs| => Rewrite(vs[i], ids))
  }

  lemma RewriteOfNode(fields: Object, vs: seq<Json>, ids: map<string, string>)
    ensures Rewrite(Obj(fields[Children := Arr(vs)]), ids)
         == Obj(RewriteNode(fields, ids)[Children := Arr(RewriteEach(vs, ids))])
  {
    var o := fields[Children := Arr(vs)];
    assert Rewrite(Obj(o), ids) == Obj(RewriteNode(o, ids)[Children := Arr(RewriteEach(vs, ids))]);
    assert RewriteNode(o, ids)[Children := Arr(RewriteEach(vs, ids))]
        == RewriteNode(fields, ids)[Children := Arr(RewriteEach(vs, ids))];
  }

  lemma RewriteOfLeaf(fields: Object, ids: map<string, string>)
    requires !(Children in fields && fields[Children].Arr?)
    ensures Rewrite(Obj(fields), ids) == Obj(RewriteNode(fields, ids))
  {
  }

  // When every node below has been rewritten, the value has.
  lemma RewrittenValue(n: Node, before: Contents, after: Contents, ids: map<string, string>)
    requires Acyclic(n) && n.repr <= before.Keys && n.repr <= after.Keys && WellFormed(n, before)
    requires forall m :: m in n.repr ==> after[m] == RewriteNode(before[m], ids)
    ensures WellFormed(n, after) && Value(n, after) == Rewrite(Value(n, before), ids)
    decreases n.repr
  {
    hide RewriteNode, Rewrite;
    forall m | m in n.repr
      ensures Shaped(m, after[m])
    {
      RewriteTwice(before[m], ids);
    }
    if n.kids.Some? {
      var ks := n.kids.value;
      forall i | HasBranch(n, i)
        ensures Value(ks[i].node, after) == Rewrite(Value(ks[i].node, before), ids)
      {
        RewrittenValue(ks[i].node, before, after, ids);
      }
      forall i | 0 <= i < |ks| && !HasBranch(n, i)
        ensures Rewrite(LeafOf(ks[i]), ids) == LeafOf(ks[i])
      {
        RewriteOfPlain(LeafOf(ks[i]), ids);
      }
      RewriteOfNode(before[n], KidValues(n, ks, before), ids);
      assert KidValues(n, ks, after) == RewriteEach(KidValues(n, ks, before), ids);
    } else {
      RewriteOfLeaf(before[n], ids);
    }
  }

  lemma RewriteOfPlain(v: Json, ids: map<string, string>)
    requires !v.Obj?
    ensures Rewrite(v, ids) == v
  {
  }
}
