// Reading a collection page by page, over both APIs.
module Paging {

  const PAGE_SIZE := 100
  const MAX_PAGES := 1000

  // What a deployment answers for one page. The ERS API also reports a total, 0
  // when it does not.
  datatype Page<T> = Page(items: seq<T>, total: int) | NoPage

  datatype Listing<T> = Listed(items: seq<T>) | ListFailed

  // --- what a walk over the pages is ----------------------------------------------

  // The objects of pages 1 to k, in order.
  function Read<T>(fetch: nat -> Page<T>, k: nat): seq<T> {
    if k == 0 then [] else Read(fetch, k - 1) + if fetch(k).Page? then fetch(k).items else []
  }

  // Page k says that there is no more: it is short, or, on the ERS API, with it as
  // many objects have been read as the deployment says there are.
  ghost predicate Last<T>(fetch: nat -> Page<T>, k: nat, useTotal: bool) {
    && fetch(k).Page?
    && (|fetch(k).items| < 100 || (useTotal && 0 < fetch(k).total <= |Read(fetch, k)|))
  }

  // All pages up to k were answered, and of the thousand that may be asked for, k is
  // the first that is the last.
  ghost predicate EndsAt<T>(fetch: nat -> Page<T>, k: nat, useTotal: bool) {
    && 1 <= k <= 1000
    && (forall j :: 1 <= j <= k ==> fetch(j).Page?)
    && (forall j :: 1 <= j < k ==> !Last(fetch, j, useTotal))
    && Last(fetch, k, useTotal)
  }

  // The answer of a listing: everything up to the last page, or an error when no page
  // is reached that is the last.
  ghost predicate Answers<T>(fetch: nat -> Page<T>, r: Listing<T>, useTotal: bool) {
    match r
    case Listed(items) => exists k :: EndsAt(fetch, k, useTotal) && items == Read(fetch, k)
    case ListFailed => forall k :: !EndsAt(fetch, k, useTotal)
  }

  // --- the two loops -----------------------------------------------------------

  method ErsList<T>(fetch: nat -> Page<T>) returns (r: Listing<T>)
    ensures Answers(fetch, r, true)
  {
    var out: seq<T> := [];
    for page := 1 to MAX_PAGES + 1
      invariant out == Read(fetch, page - 1)
      invariant forall j :: 1 <= j < page ==> fetch(j).Page? && !Last(fetch, j, true)
    {
      var p := fetch(page);
      if p.NoPage? { return ListFailed; }
      out := out + p.items;
      assert out == Read(fetch, page);
      if |p.items| < PAGE_SIZE || (p.total > 0 && |out| >= p.total) {
        assert EndsAt(fetch, page, true);
        return Listed(out);
      }
    }
    return ListFailed;
  }

  method OpenApiList<T>(fetch: nat -> Page<T>) returns (r: Listing<T>)
    ensures Answers(fetch, r, false)
  {
    var out: seq<T> := [];
    for page := 1 to MAX_PAGES + 1
      invariant out == Read(fetch, page - 1)
      invariant forall j :: 1 <= j < page ==> fetch(j).Page? && !Last(fetch, j, false)
    {
      var p := fetch(page);
      if p.NoPage? { return ListFailed; }
      out := out + p.items;
      assert out == Read(fetch, page);
      if |p.items| < PAGE_SIZE {
        assert EndsAt(fetch, page, false);
        return Listed(out);
      }
    }
    return ListFailed;
  }

  // A listing has one answer.
  lemma OneAnswer<T>(fetch: nat -> Page<T>, a: Listing<T>, b: Listing<T>, useTotal: bool)
    requires Answers(fetch, a, useTotal) && Answers(fetch, b, useTotal)
    ensures a == b
  {
    if a.Listed? && b.Listed? {
      var k :| EndsAt(fetch, k, useTotal) && a.items == Read(fetch, k);
      var l :| EndsAt(fetch, l, useTotal) && b.items == Read(fetch, l);
      assert k == l;
    }
  }

  // --- a deployment holding these objects -----------------------------------------

  function Upto(n: nat, page: nat): nat { if 100 * page <= n then 100 * page else n }

  // It answers a request for a page with that page's objects, or fails it. A total,
  // where it reports one, is the number of objects there are.
  ghost predicate Serves<T>(fetch: nat -> Page<T>, all: seq<T>) {
    forall page :: page >= 1 && fetch(page).Page? ==>
      && fetch(page).items == all[Upto(|all|, page - 1)..Upto(|all|, page)]
      && (fetch(page).total == |all| || fetch(page).total == 0)
  }

  lemma {:induction false} ReadIs<T>(fetch: nat -> Page<T>, all: seq<T>, k: nat)
    requires Serves(fetch, all) && forall j :: 1 <= j <= k ==> fetch(j).Page?
    ensures Read(fetch, k) == all[..Upto(|all|, k)]
  {
    if k > 0 {
      ReadIs(fetch, all, k - 1);
      assert all[..Upto(|all|, k - 1)] + all[Upto(|all|, k - 1)..Upto(|all|, k)] == all[..Upto(|all|, k)];
    }
  }

  // The last page of such a deployment: the first that is not full, or, when it
  // reports the total with it, the one that completes it.
  lemma LastIs<T>(fetch: nat -> Page<T>, all: seq<T>, k: nat, useTotal: bool)
    requires Serves(fetch, all) && k >= 1 && forall j :: 1 <= j <= k ==> fetch(j).Page?
    ensures Last(fetch, k, useTotal) <==>
              100 * k > |all| || (useTotal && 100 * k == |all| && fetch(k).total == |all|)
  {
    ReadIs(fetch, all, k);
    var a, b := Upto(|all|, k - 1), Upto(|all|, k);
    assert |fetch(k).items| == b - a;
    assert b - a < 100 <==> 100 * k > |all|;
    assert |Read(fetch, k)| == b;
  }

  // Page k, full or not, completes the listing.
  ghost predicate Completes<T>(fetch: nat -> Page<T>, all: seq<T>, k: nat, useTotal: bool) {
    && 1 <= k <= 1000 && (forall j :: 1 <= j <= k ==> fetch(j).Page?)
    && (100 * (k - 1) <= |all| < 100 * k || (useTotal && |all| == 100 * k == fetch(k).total))
  }

  // A listing never succeeds with anything but all the objects, in order; and it
  // succeeds if and only if every page up to one that completes it was answered.
  lemma ReadsAllOrFails<T>(fetch: nat -> Page<T>, all: seq<T>, r: Listing<T>, useTotal: bool)
    requires Serves(fetch, all) && Answers(fetch, r, useTotal)
    ensures r in {Listed(all), ListFailed}
    ensures r == Listed(all) <==> exists k :: Completes(fetch, all, k, useTotal)
  {
    forall k: nat | EndsAt(fetch, k, useTotal)
      ensures Read(fetch, k) == all && Completes(fetch, all, k, useTotal)
    {
      LastIs(fetch, all, k, useTotal);
      if k > 1 {
        var before: nat := k - 1;
        LastIs(fetch, all, before, useTotal);
      }
      ReadIs(fetch, all, k);
      assert all[..|all|] == all;
    }
    if k: nat :| Completes(fetch, all, k, useTotal) {
      FirstLast(fetch, all, k, useTotal);
    }
  }

  lemma FirstLast<T>(fetch: nat -> Page<T>, all: seq<T>, k: nat, useTotal: bool)
    requires Serves(fetch, all) && Completes(fetch, all, k, useTotal)
    ensures exists j :: EndsAt(fetch, j, useTotal)
  {
    LastIs(fetch, all, k, useTotal);
    forall j: nat | 1 <= j < k
      ensures Last(fetch, j, useTotal) ==> j == k - 1 && 100 * j == |all|
    {
      LastIs(fetch, all, j, useTotal);
    }
    if k > 1 && Last(fetch, k - 1, useTotal) {
      assert EndsAt(fetch, k - 1, useTotal);
    } else {
      assert EndsAt(fetch, k, useTotal);
    }
  }

  // From a deployment that answers every page, the OpenAPI listing is all the objects
  // when there are fewer than 100000, and an error otherwise.
  lemma OpenApiReadsAll<T>(fetch: nat -> Page<T>, all: seq<T>, r: Listing<T>)
    requires Serves(fetch, all) && Answers(fetch, r, false)
    requires forall page :: 1 <= page <= 1000 ==> fetch(page).Page?
    ensures r == if |all| < 100000 then Listed(all) else ListFailed
  {
    ReadsAllOrFails(fetch, all, r, false);
    assert |all| < 100000 ==> Completes(fetch, all, |all| / 100 + 1, false);
  }

  // So is the ERS listing, which with 100000 objects also succeeds, if the total is
  // reported with the last page.
  lemma ErsReadsAll<T>(fetch: nat -> Page<T>, all: seq<T>, r: Listing<T>)
    requires Serves(fetch, all) && Answers(fetch, r, true)
    requires forall page :: 1 <= page <= 1000 ==> fetch(page).Page?
    ensures r == if |all| < 100000 || (|all| == 100000 && fetch(1000).total == |all|) then Listed(all) else ListFailed
  {
    ReadsAllOrFails(fetch, all, r, true);
    assert |all| < 100000 ==> Completes(fetch, all, |all| / 100 + 1, true);
    assert |all| == 100000 && fetch(1000).total == |all| ==> Completes(fetch, all, 1000, true);
  }

  // A page that fails before the listing is complete fails the listing: of 150
  // objects with the second page lost, the first hundred are not an answer.
  lemma LostPageFails<T>(fetch: nat -> Page<T>, all: seq<T>, r: Listing<T>, useTotal: bool, page: nat)
    requires Serves(fetch, all) && Answers(fetch, r, useTotal)
    requires page >= 1 && fetch(page).NoPage? && 100 * (page - 1) < |all|
    ensures r == ListFailed
  {
    ReadsAllOrFails(fetch, all, r, useTotal);
  }
}
