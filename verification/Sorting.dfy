// Sorting by a text, as the program sorts what it lists: any order that puts the
// texts in order and loses nothing.
module Sorting {

  predicate AtMost(a: string, b: string) {
    a == "" || (b != "" && (a[0] < b[0] || (a[0] == b[0] && AtMost(a[1..], b[1..]))))
  }

  // Texts are compared letter by letter: the first that differ decide, and a text
  // comes before those that go on from it.
  lemma {:induction false} AtMostIs(a: string, b: string)
    ensures AtMost(a, b) <==> a <= b || exists k :: 0 <= k < |a| && k < |b| && a[..k] == b[..k] && a[k] < b[k]
  {
    if a != "" && b != "" && a[0] == b[0] {
      var c, d := a[1..], b[1..];
      AtMostIs(c, d);
      assert a == [a[0]] + c && b == [b[0]] + d;
      assert a <= b <==> c <= d;
      if k :| 0 <= k < |c| && k < |d| && c[..k] == d[..k] && c[k] < d[k] {
        assert a[..k + 1] == [a[0]] + c[..k] && b[..k + 1] == [b[0]] + d[..k] && a[k + 1] < b[k + 1];
      }
      if k :| 0 <= k < |a| && k < |b| && a[..k] == b[..k] && a[k] < b[k] {
        assert c[..k - 1] == a[..k][1..] && d[..k - 1] == b[..k][1..] && c[k - 1] < d[k - 1];
      }
    } else if a != "" && b != "" {
      assert a[..0] == b[..0];
      assert forall k :: 0 < k < |a| && k < |b| ==> a[..k][0] == a[0] && b[..k][0] == b[0];
    }
  }

  ghost predicate InOrder<T>(s: seq<T>, key: T -> string) {
    forall i, j :: 0 <= i < j < |s| ==> AtMost(key(s[i]), key(s[j]))
  }

  function Inserted<T>(x: T, s: seq<T>, key: T -> string): seq<T> {
    if s == [] || AtMost(key(x), key(s[0])) then [x] + s
    else [s[0]] + Inserted(x, s[1..], key)
  }

  function Sorted<T>(s: seq<T>, key: T -> string): seq<T> {
    if s == [] then [] else Inserted(s[0], Sorted(s[1..], key), key)
  }

  lemma {:induction false} AtMostTotal(a: string, b: string)
    ensures AtMost(a, b) || AtMost(b, a)
    ensures AtMost(a, b) && AtMost(b, a) ==> a == b
  {
    if a != "" && b != "" && a[0] == b[0] {
      AtMostTotal(a[1..], b[1..]);
      assert a == [a[0]] + a[1..] && b == [b[0]] + b[1..];
    }
  }

  lemma {:induction false} AtMostTrans(a: string, b: string, c: string)
    requires AtMost(a, b) && AtMost(b, c)
    ensures AtMost(a, c)
  {
    if a != "" && a[0] == b[0] == c[0] { AtMostTrans(a[1..], b[1..], c[1..]); }
  }

  lemma OrderCons<T>(x: T, s: seq<T>, key: T -> string)
    ensures InOrder([x] + s, key) <==> InOrder(s, key) && forall y :: y in s ==> AtMost(key(x), key(y))
  {
    hide AtMost;
    var t := [x] + s;
    if InOrder(t, key) {
      forall y | y in s
        ensures AtMost(key(x), key(y))
      {
        var j :| 0 <= j < |s| && s[j] == y;
        assert t[0] == x && t[j + 1] == y;
      }
      forall i, j | 0 <= i < j < |s|
        ensures AtMost(key(s[i]), key(s[j]))
      {
        assert t[i + 1] == s[i] && t[j + 1] == s[j];
      }
    }
  }

  lemma {:induction false} InsertedIs<T>(x: T, s: seq<T>, key: T -> string)
    requires InOrder(s, key)
    ensures InOrder(Inserted(x, s, key), key) && multiset(Inserted(x, s, key)) == multiset(s) + multiset{x}
    decreases |s|
  {
    hide AtMost, InOrder;
    if s == [] {
      OrderCons(x, s, key);
    } else {
      var first, tail := s[0], s[1..];
      assert s == [first] + tail;
      OrderCons(first, tail, key);
      AtMostTotal(key(x), key(first));
      if AtMost(key(x), key(first)) {
        forall y | y in tail
          ensures AtMost(key(x), key(y))
        {
          AtMostTrans(key(x), key(first), key(y));
        }
        OrderCons(x, s, key);
      } else {
        var rest := Inserted(x, tail, key);
        InsertedIs(x, tail, key);
        forall y | y in rest
          ensures y == x || y in tail
        {
          assert y in multiset(rest);
        }
        OrderCons(first, rest, key);
      }
    }
  }

  // Sorting puts the texts in order, loses nothing and invents nothing.
  lemma {:induction false} SortedIs<T>(s: seq<T>, key: T -> string)
    ensures InOrder(Sorted(s, key), key) && multiset(Sorted(s, key)) == multiset(s)
    decreases |s|
  {
    hide AtMost, InOrder;
    if s == [] {
      NoneInOrder(key);
    } else {
      SortedIs(s[1..], key);
      InsertedIs(s[0], Sorted(s[1..], key), key);
      assert s == [s[0]] + s[1..];
    }
  }

  lemma NoneInOrder<T>(key: T -> string)
    ensures InOrder([], key)
  {
  }

  // Texts that tell the elements apart leave one way to list them.
  lemma {:induction false} OneOrder<T>(a: seq<T>, b: seq<T>, key: T -> string)
    requires InOrder(a, key) && InOrder(b, key) && multiset(a) == multiset(b)
    requires forall x, y :: x in a && y in a && key(x) == key(y) ==> x == y
    ensures a == b
    decreases |a|
  {
    SameLength(a, b);
    if a != [] {
      HeadsAgree(a, b, key);
      TailsAgree(a, b);
      TailInOrder(a, key);
      TailInOrder(b, key);
      hide *;
      OneOrder(a[1..], b[1..], key);
      assert a == [a[0]] + a[1..] && b == [b[0]] + b[1..];
    }
  }

  lemma SameLength<T>(a: seq<T>, b: seq<T>)
    requires multiset(a) == multiset(b)
    ensures |a| == |b|
  {
    assert |a| == |multiset(a)| && |b| == |multiset(b)|;
  }

  lemma TailInOrder<T>(s: seq<T>, key: T -> string)
    requires InOrder(s, key) && s != []
    ensures InOrder(s[1..], key)
  {
    hide AtMost;
    assert s == [s[0]] + s[1..];
    OrderCons(s[0], s[1..], key);
  }

  lemma TailsAgree<T>(a: seq<T>, b: seq<T>)
    requires a != [] && b != [] && a[0] == b[0] && multiset(a) == multiset(b)
    ensures multiset(a[1..]) == multiset(b[1..])
  {
    assert a == [a[0]] + a[1..] && b == [b[0]] + b[1..];
    assert multiset(a[1..]) == multiset(a) - multiset{a[0]};
  }

  lemma HeadsAgree<T>(a: seq<T>, b: seq<T>, key: T -> string)
    requires InOrder(a, key) && InOrder(b, key) && a != [] && b != [] && multiset(a) == multiset(b)
    requires forall x, y :: x in a && y in a && key(x) == key(y) ==> x == y
    ensures a[0] == b[0]
  {
    hide AtMost, InOrder;
    assert a[0] in multiset(b) && b[0] in multiset(a);
    AtMostTotal(key(a[0]), key(b[0]));
    FirstIsLeast(a, key, b[0]);
    FirstIsLeast(b, key, a[0]);
  }

  lemma FirstIsLeast<T>(s: seq<T>, key: T -> string, x: T)
    requires InOrder(s, key) && x in s
    ensures x == s[0] || AtMost(key(s[0]), key(x))
  {
    hide AtMost;
    var i :| 0 <= i < |s| && s[i] == x;
  }
}
