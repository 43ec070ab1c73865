// Picking things off a list: the places of those wanted, in order, and what was made
// of each.
module Picking {

  // These places of the list, in order, and no other.
  ghost predicate Places<T>(at: seq<nat>, src: seq<T>, wanted: T -> bool) {
    && (forall x, y :: 0 <= x < y < |at| ==> at[x] < at[y])
    && (forall j: nat :: j in at <==> j < |src| && wanted(src[j]))
  }

  // What was made of the things at these places, in that order.
  ghost predicate Made<T, U>(at: seq<nat>, src: seq<T>, out: seq<U>, make: T -> U) {
    |out| == |at| && forall x :: 0 <= x < |at| ==> at[x] < |src| && out[x] == make(src[at[x]])
  }

  // Exactly the things wanted, in order, each made into what it becomes.
  ghost predicate Picked<T, U>(at: seq<nat>, src: seq<T>, out: seq<U>, wanted: T -> bool, make: T -> U) {
    Places(at, src, wanted) && Made(at, src, out, make)
  }

  lemma NothingPicked<T, U>(wanted: T -> bool, make: T -> U)
    ensures Picked([], [], [], wanted, make)
  {
  }

  // One thing more at the end.
  lemma LastPlace<T>(at: seq<nat>, src: seq<T>, wanted: T -> bool) returns (more: seq<nat>)
    requires src != [] && Places(at, src[..|src| - 1], wanted)
    ensures more == at + (if wanted(src[|src| - 1]) then [|src| - 1] else []) && Places(more, src, wanted)
  {
    var n := |src| - 1;
    var before := src[..n];
    more := at + if wanted(src[n]) then [n] else [];
    assert forall x :: 0 <= x < |at| ==> at[x] in at;
    forall j: nat
      ensures j in more <==> j < |src| && wanted(src[j])
    {
      assert j in more <==> j in at || (wanted(src[n]) && j == n);
      if j < n { assert before[j] == src[j]; }
    }
  }

  lemma LastMade<T, U>(at: seq<nat>, src: seq<T>, out: seq<U>, make: T -> U, hit: bool)
    requires src != [] && Made(at, src[..|src| - 1], out, make)
    ensures var n := |src| - 1;
            Made(at + (if hit then [n] else []), src, out + (if hit then [make(src[n])] else []), make)
  {
    var before := src[..|src| - 1];
    assert forall x :: 0 <= x < |at| ==> before[at[x]] == src[at[x]];
  }

  lemma LastPicked<T, U>(at: seq<nat>, src: seq<T>, out: seq<U>, wanted: T -> bool, make: T -> U)
    returns (more: seq<nat>)
    requires src != [] && Picked(at, src[..|src| - 1], out, wanted, make)
    ensures var last := src[|src| - 1];
            Picked(more, src, out + (if wanted(last) then [make(last)] else []), wanted, make)
  {
    hide Places, Made;
    more := LastPlace(at, src, wanted);
    LastMade(at, src, out, make, wanted(src[|src| - 1]));
  }

  function OneUp(at: seq<nat>): (up: seq<nat>)
    ensures |up| == |at| && forall x :: 0 <= x < |at| ==> up[x] == at[x] + 1
  {
    seq(|at|, x requires 0 <= x < |at| => at[x] + 1)
  }

  lemma UpIn(at: seq<nat>, j: nat)
    ensures j in OneUp(at) <==> j > 0 && j - 1 in at
  {
    hide OneUp;
    var up := OneUp(at);
    if j > 0 && j - 1 in at {
      var x :| 0 <= x < |at| && at[x] == j - 1;
      assert up[x] == j;
    }
  }

  // One thing more at the front.
  lemma FirstPlace<T>(at: seq<nat>, src: seq<T>, wanted: T -> bool)
    requires src != [] && Places(at, src[1..], wanted)
    ensures Places((if wanted(src[0]) then [0] else []) + OneUp(at), src, wanted)
  {
    hide OneUp;
    var more := (if wanted(src[0]) then [0] else []) + OneUp(at);
    forall j: nat
      ensures j in more <==> j < |src| && wanted(src[j])
    {
      UpIn(at, j);
      if j > 0 { assert j < |src| ==> src[j] == src[1..][j - 1]; }
    }
  }

  lemma FirstMade<T, U>(at: seq<nat>, src: seq<T>, out: seq<U>, make: T -> U, hit: bool)
    requires src != [] && Made(at, src[1..], out, make)
    ensures Made((if hit then [0] else []) + OneUp(at), src, (if hit then [make(src[0])] else []) + out, make)
  {
    hide OneUp;
    var up := OneUp(at);
    assert forall x :: 0 <= x < |at| ==> src[1..][at[x]] == src[up[x]];
    assert Made(up, src, out, make);
    if !hit {
      assert [] + up == up && [] + out == out;
    }
  }

  lemma FirstPicked<T, U>(at: seq<nat>, src: seq<T>, out: seq<U>, wanted: T -> bool, make: T -> U)
    returns (more: seq<nat>)
    requires src != [] && Picked(at, src[1..], out, wanted, make)
    ensures Picked(more, src, (if wanted(src[0]) then [make(src[0])] else []) + out, wanted, make)
  {
    hide Places, Made;
    FirstPlace(at, src, wanted);
    FirstMade(at, src, out, make, wanted(src[0]));
    more := (if wanted(src[0]) then [0] else []) + OneUp(at);
  }
}
