// The pre-flight report and the counters of an import: what every family
// appends its verdicts to, and what every apply pass accounts in.
module Report {
  import opened Objects

  datatype Action = Create | Skip | Blocked

  // One object's verdict. The reason type belongs to the family.
  datatype Item<+R> = Item(name: string, action: Action, reason: R, obj: Object)

  function Count<R>(items: seq<Item<R>>, a: Action): nat {
    if items == [] then 0
    else Count(items[..|items| - 1], a) + (if items[|items| - 1].action == a then 1 else 0)
  }

  lemma CountAppend<R>(items: seq<Item<R>>, it: Item<R>, a: Action)
    ensures Count(items + [it], a) == Count(items, a) + (if it.action == a then 1 else 0)
  {
    assert (items + [it])[..|items|] == items;
  }

  class PreflightReport<R> {
    var items: seq<Item<R>>
    var create: nat
    var skip: nat
    var blocked: nat

    ghost predicate Valid()
      reads this
    {
      && create == Count(items, Action.Create)
      && skip == Count(items, Action.Skip)
      && blocked == Count(items, Action.Blocked)
    }

    constructor ()
      ensures Valid() && items == []
    {
      items, create, skip, blocked := [], 0, 0, 0;
    }

    method Add(it: Item<R>)
      requires Valid()
      modifies this
      ensures Valid() && items == old(items) + [it]
    {
      hide Count;
      match it.action {
        case Create => create := create + 1;
        case Skip => skip := skip + 1;
        case Blocked => blocked := blocked + 1;
      }
      CountAppend(items, it, Action.Create);
      CountAppend(items, it, Action.Skip);
      CountAppend(items, it, Action.Blocked);
      items := items + [it];
    }
  }

  // The counters of one apply pass.
  datatype Tally = Tally(created: nat, skipped: nat, blocked: nat, failed: nat) {
    function Total(): nat { created + skipped + blocked + failed }
  }

  function Plus(a: Tally, b: Tally): Tally {
    Tally(a.created + b.created, a.skipped + b.skipped, a.blocked + b.blocked, a.failed + b.failed)
  }

  class ImportResult {
    var created: nat
    var skipped: nat
    var blocked: nat
    var failed: nat

    constructor ()
      ensures View() == Tally(0, 0, 0, 0)
    {
      created, skipped, blocked, failed := 0, 0, 0, 0;
    }

    ghost function View(): Tally
      reads this
    {
      Tally(created, skipped, blocked, failed)
    }
  }
}
